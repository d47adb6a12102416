/** dirlookup, dirlink and the calls link, unlink and create of sysfile.c, in place, each run
    without interruption; the paths have been resolved to a directory and a last name. */
module Sysfile {
  import opened Dirs
  import opened LinkRuns
  import opened Path

  class Files {
    var inodes: map<int, Inode>

    ghost function View(): State
      reads this
    {
      State(inodes, map[])
    }

    /** dirlookup: the index of the entry, or -1.  panic: "dirlookup not DIR". */
    method Dirlookup(dp: int, name: string) returns (off: int, panic: bool)
      requires dp in inodes
      ensures panic <==> inodes[dp].typ != T_DIR
      ensures !panic ==> (off == -1 <==> !Present(inodes[dp].des, name))
      ensures !panic && off != -1 ==> off == Lookup(inodes[dp].des, name, 0) < |inodes[dp].des|
    {
      if inodes[dp].typ != T_DIR {
        return -1, true;
      }
      panic := false;
      var des := inodes[dp].des;
      off := 0;
      while off < |des|
        invariant 0 <= off <= |des| && forall c :: 0 <= c < off ==> !Used(des[c], name)
      {
        if des[off].inum != 0 && des[off].name == name {
          return;
        }
        off := off + 1;
      }
      off := -1;
    }

    /** dirlink: 0, or -1 when the name is there already.  panic: dp is no directory, or the
        entry would be past the end of the largest file, and writei refuses it. */
    method Dirlink(dp: int, name: string, inum: int) returns (r: int, panic: bool)
      requires dp in inodes
      modifies this
      ensures panic <==> old(inodes)[dp].typ != T_DIR || (!Present(old(inodes)[dp].des, name) && Full(old(inodes)[dp].des))
      ensures r == (if panic || Present(old(inodes)[dp].des, name) then -1 else 0)
      ensures inodes == if r == -1 then old(inodes) else old(inodes)[dp := old(inodes)[dp].(des := Link(old(inodes)[dp].des, name, inum))]
    {
      var found;
      found, panic := Dirlookup(dp, name);
      if panic {
        return -1, true;
      }
      if found != -1 {
        return -1, false;
      }
      var des := inodes[dp].des;
      var off := 0;
      while off < |des|
        invariant 0 <= off <= |des| && forall c :: 0 <= c < off ==> des[c].inum != 0
      {
        if des[off].inum == 0 {
          break;
        }
        off := off + 1;
      }
      assert FirstEmpty(des, 0) == off;
      if off >= MAXENTRIES && off == |des| {
        return -1, true;
      }
      des := if off < |des| then des[off := Dirent(inum, name)] else des + [Dirent(inum, name)];
      inodes := inodes[dp := inodes[dp].(des := des)];
      return 0, false;
    }

    method Isdirempty(dp: int) returns (r: bool)
      requires dp in inodes
      ensures r <==> EmptyFrom(inodes[dp].des, 2)
    {
      var off := 2;
      while off < |inodes[dp].des|
        invariant 2 <= off && forall j :: 2 <= j < off && j < |inodes[dp].des| ==> inodes[dp].des[j].inum == 0
        decreases |inodes[dp].des| - off
      {
        if inodes[dp].des[off].inum != 0 {
          return false;
        }
        off := off + 1;
      }
      return true;
    }

    /** namex: the inode of a path, or with parent the directory of its last element and that
        element's name; 0 for none.  panic: ilock comes to an inode without a type. */
    method Namex(path: string, parent: bool, cwd: int) returns (ip: int, name: string, panic: bool)
      requires Closed(inodes) && ROOTINO in inodes && cwd in inodes && 0 !in inodes
      ensures var start := if path != "" && path[0] == '/' then ROOTINO else cwd;
              var es := Elems(path);
              && (panic <==> WalkPanics(inodes, start, es))
              && (!panic ==> if parent then ip == WalkParent(inodes, start, es) && (ip != 0 ==> es != [] && name == es[|es| - 1])
                             else ip == Walk(inodes, start, es))
    {
      hide Elems, AsMap, Present, Lookup;
      ip := if path != "" && path[0] == '/' then ROOTINO else cwd;
      ghost var start := ip;
      var rest := path;
      name, panic := "", false;
      var found := true;
      while true
        invariant !panic && ip in inodes && Walk(inodes, start, Elems(path)) == Walk(inodes, ip, Elems(rest))
        invariant WalkPanics(inodes, start, Elems(path)) <==> WalkPanics(inodes, ip, Elems(rest))
        invariant parent ==> WalkParent(inodes, start, Elems(path)) == WalkParent(inodes, ip, Elems(rest))
        invariant Elems(rest) != [] ==> Elems(path) != [] && Elems(path)[|Elems(path)| - 1] == Elems(rest)[|Elems(rest)| - 1]
        decreases |rest|
      {
        ghost var es := Elems(rest);
        found, rest, name := Skipelem(rest);
        if !found {
          break;
        }
        assert es[1..] == Elems(rest);
        if inodes[ip].typ == 0 {
          return 0, name, true;
        }
        if inodes[ip].typ != T_DIR {
          return 0, name, false;
        }
        if parent && rest == "" {
          return;
        }
        var off;
        off, panic := Dirlookup(ip, name);
        LookupMap(inodes[ip].des, name, off);
        if off == -1 {
          return 0, name, false;
        }
        ip := inodes[ip].des[off].inum;
      }
      if parent {
        ip := 0;
      }
    }

    /** link of inode ip under a name in directory dp, as namei and nameiparent found them;
        0 is none.  panic: the directory cannot grow. */
    method SysLink(ip: int, dp: int, name: string) returns (r: int, panic: bool)
      requires Inv(View()) && (ip == 0 || (ip in inodes && inodes[ip].typ != 0)) && (dp == 0 || Dir(View(), dp))
      modifies this
      ensures panic <==> ip != 0 && old(inodes)[ip].typ != T_DIR && dp != 0 && !Present(old(inodes)[dp].des, name) && Full(old(inodes)[dp].des)
      ensures !panic ==> (r == -1 <==> ip == 0 || old(inodes)[ip].typ == T_DIR || dp == 0 || Present(old(inodes)[dp].des, name))
      ensures !panic && r == -1 ==> inodes == old(inodes)
      ensures !panic && r != -1 ==>
                && r == 0 && inodes.Keys == old(inodes).Keys && AsMap(inodes[dp].des) == AsMap(old(inodes)[dp].des)[name := ip]
                && inodes[ip] == old(inodes)[ip].(nlink := old(inodes)[ip].nlink + 1) && inodes[dp] == old(inodes)[dp].(des := inodes[dp].des)
                && forall x :: x in inodes && x != dp && x != ip ==> inodes[x] == old(inodes)[x]
      ensures !panic ==> (Inv(View()) <==> r == -1 || old(inodes)[dp].nlink > 0)
    {
      hide Inv, Dir, Link, Clear, Present, AsMap, EmptyFrom, Lookup, NotEmpty, Unique, Step, Enabled, Full;
      ghost var s0 := View();
      if ip == 0 {
        return -1, false;
      }
      if inodes[ip].typ == T_DIR {
        return -1, false;
      }
      if dp != 0 {
        DirMap(s0, dp, name, ip);
        LinkCall(s0, ip, dp, name);
      }
      inodes := inodes[ip := inodes[ip].(nlink := inodes[ip].nlink + 1)];
      r, panic := -1, false;
      if dp != 0 {
        r, panic := Dirlink(dp, name, ip);
        if panic {
          return;
        }
      }
      if r < 0 {
        inodes := inodes[ip := inodes[ip].(nlink := inodes[ip].nlink - 1)];
        r := -1;
      }
    }

    /** unlink of a name in directory dp; 0 is none.  panic: "unlink: nlink < 1". */
    method SysUnlink(dp: int, name: string) returns (r: int, panic: bool)
      requires Inv(View()) && (dp == 0 || Dir(View(), dp))
      modifies this
      ensures !panic && Inv(View())
      ensures r == -1 <==> dp == 0 || name == "." || name == ".." || name !in AsMap(old(inodes)[dp].des) || NotEmpty(old(inodes), AsMap(old(inodes)[dp].des)[name])
      ensures r == -1 ==> inodes == old(inodes)
      ensures r != -1 ==>
                && r == 0 && inodes.Keys == old(inodes).Keys && AsMap(inodes[dp].des) == AsMap(old(inodes)[dp].des) - {name}
                && var ip := AsMap(old(inodes)[dp].des)[name];
                ip in inodes && inodes[ip] == old(inodes)[ip].(nlink := old(inodes)[ip].nlink - 1) &&
                inodes[dp] == old(inodes)[dp].(des := inodes[dp].des, nlink := old(inodes)[dp].nlink - if inodes[ip].typ == T_DIR then 1 else 0) &&
                forall x :: x in inodes && x != dp && x != ip ==> inodes[x] == old(inodes)[x]
    {
      hide Inv, Dir, Link, Clear, Present, AsMap, EmptyFrom, Lookup, NotEmpty, Unique, Step, Enabled;
      ghost var s0 := View();
      panic := false;
      if dp == 0 {
        return -1, false;
      }
      DirMap(s0, dp, name, 0);
      if name == "." || name == ".." {
        return -1, false;
      }
      var off;
      off, panic := Dirlookup(dp, name);
      LookupMap(inodes[dp].des, name, off);
      if off == -1 {
        return -1, false;
      }
      var ip := inodes[dp].des[off].inum;
      UnlinkAt(s0, dp, off);
      panic := inodes[ip].nlink < 1;
      if panic {
        return -1, true;
      }
      var isdir := inodes[ip].typ == T_DIR;
      if isdir {
        var empty := Isdirempty(ip);
        NotEmptyIs(inodes, ip);
        if !empty {
          return -1, false;
        }
      } else {
        NotEmptyIs(inodes, ip);
      }
      UnlinkCall(s0, dp, off);
      var des := Clear(inodes[dp].des, off);
      inodes := inodes[dp := inodes[dp].(des := des)];
      if isdir {
        inodes := inodes[dp := inodes[dp].(nlink := inodes[dp].nlink - 1)];
      }
      inodes := inodes[ip := inodes[ip].(nlink := inodes[ip].nlink - 1)];
      assert inodes == Without(s0.inodes, dp, off);
      return 0, false;
    }

    /** create of a name in directory dp, inum being the free inode that ialloc finds; 0 is
        none.  panic: ialloc finds none, or the directory cannot grow. */
    method Create(dp: int, name: string, typ: int, inum: int) returns (ip: int, panic: bool)
      requires Inv(View()) && (dp == 0 || Dir(View(), dp)) && typ != 0 && (inum == 0 || (inum in inodes && inodes[inum].typ == 0))
      modifies this
      ensures panic <==> dp != 0 && name !in AsMap(old(inodes)[dp].des) && (inum == 0 || Full(old(inodes)[dp].des))
      ensures dp == 0 ==> ip == 0 && inodes == old(inodes)
      ensures dp != 0 && name in AsMap(old(inodes)[dp].des) ==>
                && inodes == old(inodes) && var was := AsMap(inodes[dp].des)[name];
                was in inodes && ip == if typ == T_FILE && inodes[was].typ == T_FILE then was else 0
      ensures !panic && dp != 0 && name !in AsMap(old(inodes)[dp].des) ==>
                && ip == inum && inodes.Keys == old(inodes).Keys && inodes[ip].typ == typ && inodes[ip].nlink == 1
                && inodes[ip].des == (if typ == T_DIR then [Dirent(ip, "."), Dirent(dp, "..")] else [])
                && inodes[dp].typ == T_DIR && AsMap(inodes[dp].des) == AsMap(old(inodes)[dp].des)[name := inum]
                && inodes[dp].nlink == old(inodes)[dp].nlink + (if typ == T_DIR then 1 else 0)
                && (forall x :: x in inodes && x != dp && x != ip ==> inodes[x] == old(inodes)[x])
                && (Inv(View()) <==> old(inodes)[dp].nlink > 0)
    {
      hide Inv, Dir, Link, Clear, Present, AsMap, EmptyFrom, Lookup, NotEmpty, Unique, Step, Enabled, Full;
      ghost var s0 := View();
      if dp == 0 {
        return 0, false;
      }
      DirMap(s0, dp, name, inum);
      var off;
      off, panic := Dirlookup(dp, name);
      LookupMap(inodes[dp].des, name, off);
      if off != -1 {
        ip := inodes[dp].des[off].inum;
        TreeClosed(s0, dp, off);
        if !(typ == T_FILE && inodes[ip].typ == T_FILE) {
          ip := 0;
        }
        return ip, false;
      }
      if inum == 0 {
        return 0, true;
      }
      CreateCall(s0, dp, name, typ, inum);
      ip := inum;
      inodes := inodes[ip := Inode(typ, 1, [])];
      if typ == T_DIR {
        inodes := inodes[dp := inodes[dp].(nlink := inodes[dp].nlink + 1)];
        NewDots(ip, dp);
        var r;
        r, panic := Dirlink(ip, ".", ip);
        if panic || r < 0 {
          return ip, true;
        }
        r, panic := Dirlink(ip, "..", dp);
        if panic || r < 0 {
          return ip, true;
        }
      }
      var r;
      r, panic := Dirlink(dp, name, ip);
      if panic || r < 0 {
        return ip, true;
      }
      assert inodes == With(s0.inodes, dp, name, typ, ip);
    }
  }

  const T_FILE := 2

  /** Entries in the largest file: MAXFILE blocks of BSIZE bytes, sizeof(struct dirent) each. */
  const MAXENTRIES := 140 * 512 / 16

  /** A directory in use to its last entry and as large as a file can be. */
  predicate Full(des: seq<Dirent>) {
    FirstEmpty(des, 0) == |des| >= MAXENTRIES
  }

  /** In the file system's tree every entry in use names an inode. */
  lemma TreeClosed(s: State, d: int, k: int)
    requires Inv(s) && d in s.inodes && 0 <= k < |s.inodes[d].des| && s.inodes[d].des[k].inum != 0
    ensures s.inodes[d].des[k].inum in s.inodes
  {
    hide Inv, Tree, Unique;
    InvTree(s);
    ShowNode(s, d);
    if k >= 2 && Alive(s, d) { ShowEntry(s, d, k); }
  }

  /** Inode ip made and entered in dp. */
  function With(inodes: map<int, Inode>, dp: int, name: string, typ: int, ip: int): map<int, Inode>
    requires dp in inodes
  {
    var d := inodes[dp];
    var dots := if typ == T_DIR then [Dirent(ip, "."), Dirent(dp, "..")] else [];
    inodes[ip := Inode(typ, 1, dots)][dp := Inode(d.typ, if typ == T_DIR then d.nlink + 1 else d.nlink, Link(d.des, name, ip))]
  }

  /** Entry k of dp removed and its inode uncounted. */
  function Without(inodes: map<int, Inode>, dp: int, k: int): map<int, Inode>
    requires dp in inodes && 0 <= k < |inodes[dp].des| && inodes[dp].des[k].inum in inodes
  {
    var d, ip := inodes[dp], inodes[dp].des[k].inum;
    var inodes1 := inodes[dp := Inode(d.typ, if inodes[ip].typ == T_DIR then d.nlink - 1 else d.nlink, Clear(d.des, k))];
    inodes1[ip := inodes1[ip].(nlink := inodes1[ip].nlink - 1)]
  }

  /** A directory with entries besides its two dots. */
  ghost predicate NotEmpty(inodes: map<int, Inode>, ip: int) {
    ip in inodes && inodes[ip].typ == T_DIR && !EmptyFrom(inodes[ip].des, 2)
  }

  lemma NotEmptyIs(inodes: map<int, Inode>, ip: int)
    requires ip in inodes
    ensures NotEmpty(inodes, ip) <==> inodes[ip].typ == T_DIR && !EmptyFrom(inodes[ip].des, 2)
  {}

  lemma DirMap(s: State, dp: int, name: string, inum: int)
    requires Inv(s) && Dir(s, dp)
    ensures dp in s.inodes && s.inodes[dp].typ == T_DIR && Unique(s.inodes[dp].des)
    ensures !Present(s.inodes[dp].des, name) && inum != 0 ==> AsMap(Link(s.inodes[dp].des, name, inum)) == AsMap(s.inodes[dp].des)[name := inum]
  {
    hide Inv, Tree, AsMap, Link, Present;
    InvTree(s);
    ShowNode(s, dp);
    if !Present(s.inodes[dp].des, name) && inum != 0 { LinkIsInsert(s.inodes[dp].des, name, inum); }
  }

  lemma LookupMap(des: seq<Dirent>, name: string, off: int)
    requires off == -1 <==> !Present(des, name)
    requires off != -1 ==> off == Lookup(des, name, 0) < |des|
    ensures off == -1 <==> name !in AsMap(des)
    ensures off != -1 ==> 0 <= off < |des| && des[off].inum != 0 && des[off].name == name && AsMap(des)[name] == des[off].inum
  {
    hide AsMap, Present;
    AsMapAt(des, name);
  }

  /** link as its two steps. */
  lemma LinkCall(s: State, ip: int, dp: int, name: string)
    requires Inv(s) && s.calls == map[] && ip in s.inodes && s.inodes[ip].typ != 0 && s.inodes[ip].typ != T_DIR && Dir(s, dp)
    ensures dp in s.inodes && ip != 0 && ip != dp
    ensures var inodes := s.inodes[ip := s.inodes[ip].(nlink := s.inodes[ip].nlink + 1)];
            var s' := State(inodes[dp := inodes[dp].(des := Link(inodes[dp].des, name, ip))], map[]);
            !Present(s.inodes[dp].des, name) ==> (Inv(s') <==> s.inodes[dp].nlink > 0)
    ensures s.inodes[ip := s.inodes[ip].(nlink := s.inodes[ip].nlink + 1)][ip := s.inodes[ip]] == s.inodes
  {
    hide Inv, Tree, Link, Present;
    InvTree(s);
    ShowRoot(s);
    assert forall x :: !Busy(s, x);
    StepIff(s, LinkStart(0, ip));
    var s1 := Step(s, LinkStart(0, ip));
    if !Present(s.inodes[dp].des, name) {
      LinkDoneIs(s, s1, ip, dp, name);
      StepIff(s1, LinkDone(0, dp, name));
      if s.inodes[dp].nlink <= 0 { Unlinked(Step(s1, LinkDone(0, dp, name))); }
    }
  }

  lemma LinkDoneIs(s: State, s1: State, ip: int, dp: int, name: string)
    requires s.calls == map[] && Dir(s, dp) && ip in s.inodes && ip != dp && !Present(s.inodes[dp].des, name)
    requires s1.inodes == s.inodes[ip := s.inodes[ip].(nlink := s.inodes[ip].nlink + 1)] && s1.calls == map[0 := Linking(ip)]
    ensures Enabled(s1, LinkDone(0, dp, name))
    ensures Step(s1, LinkDone(0, dp, name)) == State(s1.inodes[dp := s1.inodes[dp].(des := Link(s1.inodes[dp].des, name, ip))], map[])
    ensures Proper(s1, LinkDone(0, dp, name)) <==> s.inodes[dp].nlink > 0
  {
    hide Link, Present;
    assert s1.calls - {0} == map[];
  }

  /** The entry unlink has found. */
  lemma UnlinkAt(s: State, dp: int, k: int)
    requires Inv(s) && Dir(s, dp) && 0 <= k < |s.inodes[dp].des|
    requires var de := s.inodes[dp].des[k]; de.inum != 0 && de.name != "." && de.name != ".."
    ensures var ip := s.inodes[dp].des[k].inum; ip in s.inodes && ip != dp && s.inodes[ip].nlink >= 1
  {
    hide Inv, Tree, Names, Credits, Unique;
    InvTree(s);
    ShowNode(s, dp);
    assert k >= 2 && Alive(s, dp);
    ShowEntry(s, dp, k);
    var ip := s.inodes[dp].des[k].inum;
    ShowNode(s, ip);
    NamesSome(s, dp, k, ip);
    ShowLinked(s, ip);
  }

  /** unlink as its two steps. */
  lemma UnlinkCall(s: State, dp: int, k: int)
    requires Inv(s) && s.calls == map[] && Dir(s, dp) && 0 <= k < |s.inodes[dp].des|
    requires var de := s.inodes[dp].des[k]; de.inum != 0 && de.name != "." && de.name != ".." && de.inum in s.inodes && de.inum != dp
    requires var ip := s.inodes[dp].des[k].inum; s.inodes[ip].typ == T_DIR ==> EmptyFrom(s.inodes[ip].des, 2)
    ensures Inv(State(Without(s.inodes, dp, k), map[]))
    ensures AsMap(Clear(s.inodes[dp].des, k)) == AsMap(s.inodes[dp].des) - {s.inodes[dp].des[k].name}
  {
    hide Inv, Tree, Clear, EmptyFrom, AsMap;
    InvTree(s);
    ShowNode(s, dp);
    ClearIsRemove(s.inodes[dp].des, k);
    assert forall x :: !Busy(s, x);
    var e := UnlinkStart(0, dp, k);
    StepIff(s, e);
    var s1 := Step(s, e);
    StepIff(s1, UnlinkDone(0));
    assert s1.calls - {0} == map[];
    assert Step(s1, UnlinkDone(0)).inodes == Without(s.inodes, dp, k);
  }

  lemma CreateCall(s: State, dp: int, name: string, typ: int, ip: int)
    requires Inv(s) && s.calls == map[] && Dir(s, dp) && !Present(s.inodes[dp].des, name) && ip in s.inodes && s.inodes[ip].typ == 0 && typ != 0
    ensures dp in s.inodes && ip != 0 && dp != 0 && ip != dp
    ensures Inv(State(With(s.inodes, dp, name, typ, ip), map[])) <==> s.inodes[dp].nlink > 0
  {
    hide Inv, Tree, Link, Present;
    InvTree(s);
    ShowRoot(s);
    var e := Event.Create(dp, name, typ, ip);
    StepIff(s, e);
    assert Step(s, e) == State(With(s.inodes, dp, name, typ, ip), map[]);
    if s.inodes[dp].nlink <= 0 { Unlinked(Step(s, e)); }
  }

  /** The two entries of a new directory. */
  lemma NewDots(ip: int, dp: int)
    requires ip != 0 && dp != 0
    ensures !Present([], ".") && Link([], ".", ip) == [Dirent(ip, ".")]
    ensures !Present([Dirent(ip, ".")], "..") && Link([Dirent(ip, ".")], "..", dp) == [Dirent(ip, "."), Dirent(dp, "..")]
    ensures !Full([]) && !Full([Dirent(ip, ".")])
  {}

  /** Every entry in use names an inode of the table. */
  ghost predicate Closed(inodes: map<int, Inode>) {
    forall d, k :: d in inodes && 0 <= k < |inodes[d].des| && inodes[d].des[k].inum != 0 ==> inodes[d].des[k].inum in inodes
  }

  /** From ip through the directories named in turn; 0 when one is missing or no directory. */
  ghost function Walk(inodes: map<int, Inode>, ip: int, names: seq<string>): int
    decreases |names|
  {
    if names == [] then ip
    else if ip !in inodes || inodes[ip].typ != T_DIR || names[0] !in AsMap(inodes[ip].des) then 0
    else Walk(inodes, AsMap(inodes[ip].des)[names[0]], names[1..])
  }

  /** On the way an inode must be locked that has no type. */
  ghost predicate WalkPanics(inodes: map<int, Inode>, ip: int, names: seq<string>)
    decreases |names|
  {
    names != [] && ip in inodes &&
    (inodes[ip].typ == 0 ||
     (inodes[ip].typ == T_DIR && names[0] in AsMap(inodes[ip].des) && WalkPanics(inodes, AsMap(inodes[ip].des)[names[0]], names[1..])))
  }

  /** The same as Walk, stopping one element early in a directory. */
  ghost function WalkParent(inodes: map<int, Inode>, ip: int, names: seq<string>): int
    decreases |names|
  {
    if names == [] || ip !in inodes || inodes[ip].typ != T_DIR then 0
    else if |names| == 1 then ip
    else if names[0] !in AsMap(inodes[ip].des) then 0
    else WalkParent(inodes, AsMap(inodes[ip].des)[names[0]], names[1..])
  }

  /** Directory a has an entry for b. */
  ghost predicate Hop(inodes: map<int, Inode>, a: int, name: string, b: int) {
    a in inodes && inodes[a].typ == T_DIR && name in AsMap(inodes[a].des) && AsMap(inodes[a].des)[name] == b
  }

  /** The inodes passed on the way. */
  ghost predicate Trail(inodes: map<int, Inode>, trail: seq<int>, names: seq<string>)
    decreases |names|
  {
    |trail| == |names| + 1 && (names != [] ==> Hop(inodes, trail[0], names[0], trail[1]) && Trail(inodes, trail[1..], names[1..]))
  }

  /** A path leads to an inode if and only if each element is found in the directory before it. */
  lemma {:induction false} WalkIff(inodes: map<int, Inode>, ip: int, names: seq<string>, y: int)
    requires y != 0
    ensures Walk(inodes, ip, names) == y <==> exists trail :: Trail(inodes, trail, names) && trail[0] == ip && trail[|names|] == y
    decreases |names|
  {
    hide AsMap;
    if names == [] {
      if ip == y {
        var trail := [ip];
        assert Trail(inodes, trail, names) && trail[0] == ip && trail[|names|] == y;
      }
    } else {
      if ip in inodes && inodes[ip].typ == T_DIR && names[0] in AsMap(inodes[ip].des) {
        var next := AsMap(inodes[ip].des)[names[0]];
        WalkIff(inodes, next, names[1..], y);
        if trail :| Trail(inodes, trail, names[1..]) && trail[0] == next && trail[|names[1..]|] == y {
          assert ([ip] + trail)[1..] == trail;
          assert Trail(inodes, [ip] + trail, names);
        }
      }
      if trail :| Trail(inodes, trail, names) && trail[0] == ip && trail[|names|] == y {
        var t := trail[1..];
        assert Trail(inodes, t, names[1..]) && t[0] == trail[1] && t[|names[1..]|] == y;
      }
    }
  }

  /** nameiparent gives the directory that the path without its last element leads to. */
  lemma {:induction false} ParentIs(inodes: map<int, Inode>, ip: int, names: seq<string>)
    requires names != [] && 0 !in inodes
    ensures var d := Walk(inodes, ip, names[..|names| - 1]);
            WalkParent(inodes, ip, names) == if d in inodes && inodes[d].typ == T_DIR then d else 0
    decreases |names|
  {
    hide AsMap;
    var front := names[..|names| - 1];
    if |names| > 1 {
      assert front[1..] == names[1..][..|names| - 2] && front[0] == names[0];
      if ip in inodes && inodes[ip].typ == T_DIR && names[0] in AsMap(inodes[ip].des) {
        ParentIs(inodes, AsMap(inodes[ip].des)[names[0]], names[1..]);
      }
    }
  }
}
