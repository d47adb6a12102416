/** Link counts under interleaved create, link and unlink.  A step is what a call does while
    it holds the locks of the inodes it changes. */
module LinkRuns {
  import opened Dirs
  import opened Sums

  const T_DIR := 1
  const ROOTINO := 1

  /** typ 0 is a free inode; des are a directory's entries. */
  datatype Inode = Inode(typ: int, nlink: int, des: seq<Dirent>)

  /** Calls in the middle: link has counted ip and not yet entered it; unlink has removed the
      entry and not yet uncounted ip, which it keeps locked. */
  datatype Call = Linking(ip: int) | Unlinking(ip: int)

  datatype State = State(inodes: map<int, Inode>, calls: map<int, Call>)

  datatype Event =
    | LinkStart(id: int, ip: int) | LinkDone(id: int, dp: int, name: string) | LinkFail(id: int)
    | UnlinkStart(id: int, dp: int, k: int) | UnlinkDone(id: int)
    | Create(dp: int, name: string, typ: int, ip: int) | Free(x: int)

  ghost predicate Busy(s: State, x: int) {
    exists id :: id in s.calls && s.calls[id] == Unlinking(x)
  }

  /** An unlocked directory. */
  ghost predicate Dir(s: State, d: int) {
    d in s.inodes && s.inodes[d].typ == T_DIR && !Busy(s, d)
  }

  /** A directory that is still linked and not being unlinked. */
  ghost predicate Alive(s: State, d: int) {
    Dir(s, d) && s.inodes[d].nlink > 0
  }

  /** What unlink agrees to remove. */
  ghost predicate Removable(s: State, de: Dirent) {
    && de.inum != 0 && de.name != "." && de.name != ".." && de.inum in s.inodes && !Busy(s, de.inum)
    && (s.inodes[de.inum].typ == T_DIR ==> EmptyFrom(s.inodes[de.inum].des, 2))
  }

  ghost predicate Enabled(s: State, e: Event) {
    match e
    case LinkStart(id, ip) => id !in s.calls && ip in s.inodes && s.inodes[ip].typ != 0 && s.inodes[ip].typ != T_DIR && !Busy(s, ip)
    case LinkDone(id, dp, name) => id in s.calls && s.calls[id].Linking? && Dir(s, dp) && !Present(s.inodes[dp].des, name)
    case LinkFail(id) => id in s.calls && s.calls[id].Linking? && s.calls[id].ip in s.inodes && !Busy(s, s.calls[id].ip)
    case UnlinkStart(id, dp, k) =>
      id !in s.calls && Dir(s, dp) && 0 <= k < |s.inodes[dp].des| && Removable(s, s.inodes[dp].des[k])
    case UnlinkDone(id) => id in s.calls && s.calls[id].Unlinking? && s.calls[id].ip in s.inodes
    case Create(dp, name, typ, ip) => Dir(s, dp) && !Present(s.inodes[dp].des, name) && ip in s.inodes && s.inodes[ip].typ == 0 && typ != 0
    case Free(x) => x in s.inodes && s.inodes[x].typ != 0 && s.inodes[x].nlink == 0 && Credits(s, x) == 0
  }

  function Plus(s: State, x: int, n: int): map<int, Inode>
    requires x in s.inodes
  {
    s.inodes[x := s.inodes[x].(nlink := s.inodes[x].nlink + n)]
  }

  function Step(s: State, e: Event): State
    requires Enabled(s, e)
  {
    match e
    case LinkStart(id, ip) => State(Plus(s, ip, 1), s.calls[id := Linking(ip)])
    case LinkDone(id, dp, name) =>
      State(s.inodes[dp := s.inodes[dp].(des := Link(s.inodes[dp].des, name, s.calls[id].ip))], s.calls - {id})
    case LinkFail(id) => State(Plus(s, s.calls[id].ip, -1), s.calls - {id})
    case UnlinkStart(id, dp, k) =>
      var d := s.inodes[dp];
      var ip := d.des[k].inum;
      var isdir := s.inodes[ip].typ == T_DIR;
      State(s.inodes[dp := Inode(d.typ, if isdir then d.nlink - 1 else d.nlink, Clear(d.des, k))], s.calls[id := Unlinking(ip)])
    case UnlinkDone(id) => State(Plus(s, s.calls[id].ip, -1), s.calls - {id})
    case Create(dp, name, typ, ip) =>
      var d := s.inodes[dp];
      var d' := Inode(d.typ, if typ == T_DIR then d.nlink + 1 else d.nlink, Link(d.des, name, ip));
      s.(inodes := s.inodes[ip := Inode(typ, 1, if typ == T_DIR then [Dirent(ip, "."), Dirent(dp, "..")] else [])][dp := d'])
    case Free(x) => s.(inodes := s.inodes[x := Inode(0, 0, [])])
  }

  /** How often directory d names x, if that counts. */
  ghost function Weight(s: State, d: int, x: int): nat {
    if Alive(s, d) then Count(s.inodes[d].des, x) else 0
  }

  ghost function Weights(s: State, x: int): map<int, nat> {
    map d | d in s.inodes :: Weight(s, d, x)
  }

  /** The entries other than "." that name x in directories that count. */
  ghost function Names(s: State, x: int): nat {
    Sum(Weights(s, x))
  }

  ghost function Crediting(calls: map<int, Call>, x: int): set<int> {
    set id | id in calls && calls[id].ip == x
  }

  ghost function Credits(s: State, x: int): nat {
    |Crediting(s.calls, x)|
  }

  /** A directory starts with its two dots and is a map; one that does not count is empty. */
  ghost predicate NodeOk(s: State, x: int)
    requires x in s.inodes
  {
    var n := s.inodes[x];
    && (n.typ == 0 ==> n.nlink == 0)
    && (n.typ != T_DIR ==> n.des == [])
    && (n.typ == T_DIR ==>
          && |n.des| >= 2 && n.des[0] == Dirent(x, ".") && n.des[1].name == ".." && n.des[1].inum in s.inodes && Unique(n.des)
          && (x != ROOTINO ==> n.des[1].inum != x) && (!Alive(s, x) ==> EmptyFrom(n.des, 2)))
  }

  /** An entry of a directory that counts names an inode in use; a directory has only the one
      entry and knows where. */
  ghost predicate EntryOk(s: State, d: int, k: int)
    requires d in s.inodes && 2 <= k < |s.inodes[d].des|
  {
    var c := s.inodes[d].des[k].inum;
    && c in s.inodes && s.inodes[c].typ != 0 && c != ROOTINO
    && (s.inodes[c].typ == T_DIR ==>
          && |s.inodes[c].des| >= 2 && s.inodes[c].des[1].inum == d
          && forall j :: 2 <= j < |s.inodes[d].des| && j != k ==> s.inodes[d].des[j].inum != c)
  }

  /** A directory that counts is entered in its parent. */
  ghost predicate HomeOk(s: State, c: int)
    requires c in s.inodes && |s.inodes[c].des| >= 2
  {
    var p := s.inodes[c].des[1].inum;
    Alive(s, p) && exists k :: 2 <= k < |s.inodes[p].des| && s.inodes[p].des[k].inum == c
  }

  ghost predicate CallOk(s: State, id: int)
    requires id in s.calls
  {
    var x := s.calls[id].ip;
    && x in s.inodes && s.inodes[x].typ != 0 && x != ROOTINO
    && (s.calls[id].Linking? ==> s.inodes[x].typ != T_DIR)
    && (s.calls[id].Unlinking? && s.inodes[x].typ == T_DIR ==> s.inodes[x].nlink == 1 && EmptyFrom(s.inodes[x].des, 2))
    && (s.calls[id].Unlinking? ==> forall id2 :: id2 in s.calls && id2 != id ==> s.calls[id2] != Unlinking(x))
  }

  /** Every link count is the number of entries that count, plus the calls in the middle. */
  ghost predicate Linked(s: State, x: int)
    requires x in s.inodes
  {
    s.inodes[x].nlink == Names(s, x) + Credits(s, x)
  }

  ghost predicate Tree(s: State) {
    && 0 !in s.inodes && Alive(s, ROOTINO) && |s.inodes[ROOTINO].des| >= 2 && s.inodes[ROOTINO].des[1].inum == ROOTINO
    && (forall x :: x in s.inodes ==> NodeOk(s, x))
    && (forall d, k :: Alive(s, d) && 2 <= k < |s.inodes[d].des| && s.inodes[d].des[k].inum != 0 ==> EntryOk(s, d, k))
    && (forall c :: Alive(s, c) && c != ROOTINO ==> |s.inodes[c].des| >= 2 && HomeOk(s, c))
    && (forall id :: id in s.calls ==> CallOk(s, id))
  }

  ghost predicate Inv(s: State) {
    Tree(s) && forall x :: x in s.inodes ==> Linked(s, x)
  }

  lemma ShowLinked(s: State, x: int)
    requires Inv(s) && x in s.inodes
    ensures Linked(s, x)
  {}

  lemma ShowNode(s: State, x: int)
    requires Tree(s) && x in s.inodes
    ensures NodeOk(s, x) && 0 !in s.inodes
  {}

  lemma ShowEntry(s: State, d: int, k: int)
    requires Tree(s) && Alive(s, d) && 2 <= k < |s.inodes[d].des| && s.inodes[d].des[k].inum != 0
    ensures EntryOk(s, d, k)
  {}

  lemma ShowHome(s: State, c: int)
    requires Tree(s) && Alive(s, c) && c != ROOTINO
    ensures |s.inodes[c].des| >= 2 && HomeOk(s, c)
  {}

  lemma ShowCall(s: State, id: int)
    requires Tree(s) && id in s.calls
    ensures CallOk(s, id)
  {}

  lemma ShowRoot(s: State)
    requires Tree(s)
    ensures Alive(s, ROOTINO) && |s.inodes[ROOTINO].des| >= 2 && s.inodes[ROOTINO].des[1].inum == ROOTINO && 0 !in s.inodes
  {}

  /** Sums over two states that agree except at d and e. */
  lemma NamesAt(s: State, s': State, d: int, e: int, x: int)
    requires s'.inodes.Keys == s.inodes.Keys && d in s.inodes && e in s.inodes && d != e
    requires forall c :: c in s.inodes && c != d && c != e ==> Weight(s', c, x) == Weight(s, c, x)
    ensures Names(s', x) - Weight(s', d, x) - Weight(s', e, x) == Names(s, x) - Weight(s, d, x) - Weight(s, e, x)
  {
    hide Weight;
    var w, w' := Weights(s, x), Weights(s', x);
    SumAt(w, d);
    SumAt(w - {d}, e);
    SumAt(w', d);
    SumAt(w' - {d}, e);
    assert w - {d} - {e} == w' - {d} - {e};
  }

  lemma NamesSame(s: State, s': State, x: int)
    requires s'.inodes.Keys == s.inodes.Keys && forall c :: c in s.inodes ==> Weight(s', c, x) == Weight(s, c, x)
    ensures Names(s', x) == Names(s, x)
  {
    hide Weight;
    assert Weights(s', x) == Weights(s, x);
  }

  lemma CreditAdd(s: State, id: int, c: Call, x: int)
    requires id !in s.calls
    ensures Credits(s.(calls := s.calls[id := c]), x) == Credits(s, x) + if c.ip == x then 1 else 0
  {
    var a, b := Crediting(s.calls, x), Crediting(s.calls[id := c], x);
    assert id !in a;
    forall i ensures i in b <==> i in a || (i == id && c.ip == x) {}
    assert b == if c.ip == x then a + {id} else a;
  }

  lemma CreditDrop(s: State, id: int, x: int)
    requires id in s.calls
    ensures Credits(s.(calls := s.calls - {id}), x) == Credits(s, x) - if s.calls[id].ip == x then 1 else 0
  {
    var a, b := Crediting(s.calls, x), Crediting(s.calls - {id}, x);
    forall i ensures i in b <==> i in a && i != id {}
    assert b == a - {id};
    if s.calls[id].ip == x { assert id in a; } else { assert a - {id} == a; }
  }

  lemma CreditSome(s: State, id: int)
    requires id in s.calls
    ensures Credits(s, s.calls[id].ip) >= 1
  {
    CreditDrop(s, id, s.calls[id].ip);
  }

  /** Nothing but link counts and calls changed, and the same directories count. */
  ghost predicate Ticks(s: State, s': State) {
    && s'.inodes.Keys == s.inodes.Keys
    && (forall x :: x in s.inodes ==> s'.inodes[x] == s.inodes[x].(nlink := s'.inodes[x].nlink))
    && (forall x :: x in s.inodes ==> (Alive(s', x) <==> Alive(s, x)))
  }

  lemma TickTree(s: State, s': State)
    requires Tree(s) && Ticks(s, s') && (forall id :: id in s'.calls ==> CallOk(s', id))
    requires forall x :: x in s'.inodes && s'.inodes[x].typ == 0 ==> s'.inodes[x].nlink == 0
    ensures Tree(s')
  {
    AliveIn(s);
    AliveIn(s');
    hide Alive, CallOk;
    ShowRoot(s);
    forall x | x in s'.inodes ensures NodeOk(s', x) { ShowNode(s, x); }
    forall d, k | Alive(s', d) && d in s.inodes && 2 <= k < |s'.inodes[d].des| && s'.inodes[d].des[k].inum != 0 ensures EntryOk(s', d, k) {
      ShowEntry(s, d, k);
    }
    forall c | Alive(s', c) && c in s.inodes && c != ROOTINO ensures |s'.inodes[c].des| >= 2 && HomeOk(s', c) {
      ShowHome(s, c);
      var p := s.inodes[c].des[1].inum;
      var k :| 2 <= k < |s.inodes[p].des| && s.inodes[p].des[k].inum == c;
      assert s'.inodes[p].des[k].inum == c;
    }
  }

  lemma AliveIn(s: State)
    ensures forall d :: Alive(s, d) ==> d in s.inodes && s.inodes[d].typ == T_DIR && s.inodes[d].nlink > 0
  {}

  lemma TickNames(s: State, s': State, x: int)
    requires Ticks(s, s')
    ensures Names(s', x) == Names(s, x)
  {
    NamesSame(s, s', x);
  }

  lemma CreditCalls(s: State, t: State, x: int)
    requires s.calls == t.calls
    ensures Credits(s, x) == Credits(t, x)
  {}

  lemma InvTree(s: State)
    requires Inv(s)
    ensures Tree(s)
  {}

  lemma InvFrom(s: State)
    requires Tree(s) && forall x :: x in s.inodes ==> Linked(s, x)
    ensures Inv(s)
  {}

  /** Counts and calls change alike. */
  lemma TickInv(s: State, s': State)
    requires Inv(s) && Ticks(s, s') && (forall id :: id in s'.calls ==> CallOk(s', id))
    requires forall x :: x in s'.inodes && s'.inodes[x].typ == 0 ==> s'.inodes[x].nlink == 0
    requires forall x :: x in s.inodes ==> s'.inodes[x].nlink - s.inodes[x].nlink == Credits(s', x) - Credits(s, x)
    ensures Inv(s')
  {
    hide Tree, Inv, Names, Credits, CallOk, Alive;
    InvTree(s);
    TickTree(s, s');
    forall x | x in s'.inodes ensures Linked(s', x) {
      ShowLinked(s, x);
      TickNames(s, s', x);
    }
    InvFrom(s');
  }

  lemma LinkStartInv(s: State, id: int, ip: int)
    requires Inv(s) && Enabled(s, LinkStart(id, ip))
    ensures Inv(Step(s, LinkStart(id, ip)))
  {
    hide Tree, Inv, Credits, Names;
    var s' := Step(s, LinkStart(id, ip));
    InvTree(s);
    ShowRoot(s);
    forall x ensures Busy(s', x) <==> Busy(s, x) {
      if i :| i in s.calls && s.calls[i] == Unlinking(x) { assert s'.calls[i] == Unlinking(x); }
    }
    forall i | i in s'.calls ensures CallOk(s', i) { if i != id { ShowCall(s, i); } }
    forall x | x in s.inodes ensures s'.inodes[x].nlink - s.inodes[x].nlink == Credits(s', x) - Credits(s, x) {
      CreditAdd(s, id, Linking(ip), x);
      CreditCalls(s', s.(calls := s'.calls), x);
    }
    forall x | x in s.inodes && s.inodes[x].typ == 0 ensures s'.inodes[x].nlink == 0 { ShowNode(s, x); }
    hide CallOk, NodeOk;
    assert Ticks(s, s');
    TickInv(s, s');
  }

  lemma LinkFailInv(s: State, id: int)
    requires Inv(s) && Enabled(s, LinkFail(id))
    ensures Inv(Step(s, LinkFail(id)))
  {
    hide Tree, Inv, Credits, Names;
    var s' := Step(s, LinkFail(id));
    InvTree(s);
    ShowRoot(s);
    ShowCall(s, id);
    forall x ensures Busy(s', x) <==> Busy(s, x) {
      if i :| i in s.calls && s.calls[i] == Unlinking(x) { assert s'.calls[i] == Unlinking(x); }
    }
    forall i | i in s'.calls ensures CallOk(s', i) { ShowCall(s, i); }
    forall x | x in s.inodes ensures s'.inodes[x].nlink - s.inodes[x].nlink == Credits(s', x) - Credits(s, x) {
      CreditDrop(s, id, x);
      CreditCalls(s', s.(calls := s'.calls), x);
    }
    forall x | x in s.inodes && s.inodes[x].typ == 0 ensures s'.inodes[x].nlink == 0 { ShowNode(s, x); }
    hide CallOk, NodeOk;
    assert Ticks(s, s');
    TickInv(s, s');
  }

  lemma UnlinkDoneInv(s: State, id: int)
    requires Inv(s) && Enabled(s, UnlinkDone(id))
    ensures Inv(Step(s, UnlinkDone(id)))
  {
    hide Tree, Inv, Credits, Names;
    var s' := Step(s, UnlinkDone(id));
    InvTree(s);
    ShowRoot(s);
    var ip := s.calls[id].ip;
    ShowCall(s, id);
    forall x | x != ip ensures Busy(s', x) <==> Busy(s, x) {
      if i :| i in s.calls && s.calls[i] == Unlinking(x) { assert s'.calls[i] == Unlinking(x); }
    }
    assert Busy(s, ip);
    forall i | i in s'.calls ensures CallOk(s', i) { ShowCall(s, i); }
    forall x | x in s.inodes ensures s'.inodes[x].nlink - s.inodes[x].nlink == Credits(s', x) - Credits(s, x) {
      CreditDrop(s, id, x);
      CreditCalls(s', s.(calls := s'.calls), x);
    }
    forall x | x in s.inodes && s.inodes[x].typ == 0 ensures s'.inodes[x].nlink == 0 { ShowNode(s, x); }
    hide CallOk, NodeOk;
    assert Ticks(s, s');
    TickInv(s, s');
  }

  /** Any entry that counts gives its inode a link. */
  lemma NamesSome(s: State, d: int, k: int, x: int)
    requires Alive(s, d) && 0 <= k < |s.inodes[d].des| && Naming(s.inodes[d].des[k], x) == 1
    ensures Names(s, x) >= Weight(s, d, x) >= 1
  {
    CountSome(s.inodes[d].des, k, x);
    SumAt(Weights(s, x), d);
  }

  lemma FreeInv(s: State, x: int)
    requires Inv(s) && Enabled(s, Free(x))
    ensures Inv(Step(s, Free(x)))
  {
    hide Tree, Inv, Credits, Names;
    var s' := Step(s, Free(x));
    InvTree(s);
    ShowRoot(s);
    assert forall d :: d in s.inodes ==> (Alive(s', d) <==> Alive(s, d));
    FreeTree(s, x);
    forall y | y in s'.inodes ensures Linked(s', y) {
      ShowLinked(s, x);
      ShowLinked(s, y);
      NamesSame(s, s', y);
      CreditCalls(s', s, y);
    }
    InvFrom(s');
  }

  ghost predicate Frees(s: State, s': State, x: int) {
    && s' == s.(inodes := s.inodes[x := Inode(0, 0, [])]) && x in s.inodes && s.inodes[x].nlink == 0 && Credits(s, x) == 0
    && forall d :: d in s.inodes ==> (Alive(s', d) <==> Alive(s, d))
  }

  lemma FreeTree(s: State, x: int)
    requires Inv(s) && Enabled(s, Free(x)) && Frees(s, Step(s, Free(x)), x)
    ensures Tree(Step(s, Free(x)))
  {
    var s' := Step(s, Free(x));
    AliveIn(s);
    AliveIn(s');
    hide *;
    InvTree(s);
    FreeIs(s, s', x);
    ShowRoot(s);
    forall y | y in s'.inodes ensures NodeOk(s', y) { FreeNode(s, s', x, y); }
    forall d, k | Alive(s', d) && 2 <= k < |s'.inodes[d].des| && s'.inodes[d].des[k].inum != 0 ensures EntryOk(s', d, k) {
      FreeEntry(s, s', x, d, k);
    }
    forall c | Alive(s', c) && c != ROOTINO ensures |s'.inodes[c].des| >= 2 && HomeOk(s', c) { FreeHome(s, s', x, c); }
    forall i | i in s'.calls ensures CallOk(s', i) { FreeCall(s, s', x, i); }
    TreeFrom(s');
  }

  lemma TreeFrom(s: State)
    requires 0 !in s.inodes && Alive(s, ROOTINO) && ROOTINO in s.inodes && |s.inodes[ROOTINO].des| >= 2 && s.inodes[ROOTINO].des[1].inum == ROOTINO
    requires forall x :: x in s.inodes ==> NodeOk(s, x)
    requires forall d :: Alive(s, d) ==> d in s.inodes
    requires forall d, k :: Alive(s, d) && 2 <= k < |s.inodes[d].des| && s.inodes[d].des[k].inum != 0 ==> EntryOk(s, d, k)
    requires forall c :: Alive(s, c) && c != ROOTINO ==> |s.inodes[c].des| >= 2 && HomeOk(s, c)
    requires forall id :: id in s.calls ==> CallOk(s, id)
    ensures Tree(s)
  {}

  lemma FreeIs(s: State, s': State, x: int)
    requires Frees(s, s', x)
    ensures s'.inodes == s.inodes[x := Inode(0, 0, [])] && s'.calls == s.calls && x in s.inodes && s.inodes[x].nlink == 0
    ensures forall d :: d in s.inodes ==> (Alive(s', d) <==> Alive(s, d))
  {}

  lemma FreeNode(s: State, s': State, x: int, y: int)
    requires Tree(s) && Frees(s, s', x) && y in s'.inodes
    ensures NodeOk(s', y)
  {
    hide Tree, Alive, Unique, Credits;
    ShowNode(s, y);
  }

  lemma FreeCall(s: State, s': State, x: int, i: int)
    requires Tree(s) && Frees(s, s', x) && i in s'.calls
    ensures CallOk(s', i)
  {
    hide Tree, Alive, Credits;
    ShowCall(s, i);
    CreditSome(s, i);
  }

  lemma FreeHome(s: State, s': State, x: int, c: int)
    requires Tree(s) && Frees(s, s', x) && Alive(s, c) && c != ROOTINO && c != x
    ensures |s.inodes[c].des| >= 2 && HomeOk(s', c)
  {
    AliveIn(s);
    hide Alive, Tree, NodeOk, EntryOk, CallOk, Credits;
    ShowHome(s, c);
    var p := s.inodes[c].des[1].inum;
    var k :| 2 <= k < |s.inodes[p].des| && s.inodes[p].des[k].inum == c;
    assert s'.inodes[p].des[k].inum == c;
  }

  lemma FreeEntry(s: State, s': State, x: int, d: int, k: int)
    requires Inv(s) && Frees(s, s', x) && Alive(s, d) && d != x && 2 <= k < |s.inodes[d].des| && s.inodes[d].des[k].inum != 0
    ensures EntryOk(s', d, k)
  {
    hide Inv, Tree, Names, Credits;
    InvTree(s);
    ShowEntry(s, d, k);
    ShowNode(s, d);
    ShowLinked(s, x);
    if s.inodes[d].des[k].inum == x {
      DotFirst(s, d, k);
      NamesSome(s, d, k, x);
    }
  }

  /** Entries after the first two are not called "." or "..". */
  lemma DotFirst(s: State, d: int, k: int)
    requires d in s.inodes && NodeOk(s, d) && s.inodes[d].typ == T_DIR && 2 <= k < |s.inodes[d].des| && s.inodes[d].des[k].inum != 0 && 0 !in s.inodes
    ensures s.inodes[d].des[k].name != "." && s.inodes[d].des[k].name != ".."
  {}

  /** What dirlink does to a directory of the tree. */
  lemma LinkShape(s: State, dp: int, name: string, inum: int)
    requires Tree(s) && dp in s.inodes && s.inodes[dp].typ == T_DIR && !Present(s.inodes[dp].des, name) && inum != 0
    ensures var des := s.inodes[dp].des;
            var r := Link(des, name, inum);
            var z := FirstEmpty(des, 0);
            && 2 <= z < |r| && |des| <= |r| <= |des| + 1 && r[z] == Dirent(inum, name) && (z == |des| || |r| == |des|)
            && (forall j :: 0 <= j < |r| && j != z ==> j < |des| && r[j] == des[j]) && Unique(r) && (z < |des| ==> des[z].inum == 0)
            && name != "." && name != ".."
            && (forall x :: x != 0 ==> Count(r, x) == Count(des, x) + if x == inum then 1 else 0)
  {
    hide Tree, AsMap;
    ShowNode(s, dp);
    var des := s.inodes[dp].des;
    assert Used(des[0], ".") && Used(des[1], "..");
    LinkIsInsert(des, name, inum);
    forall x | x != 0 ensures Count(Link(des, name, inum), x) == Count(des, x) + if x == inum then 1 else 0 { CountLink(des, name, inum, x); }
  }

  /** A new entry in directory dp for ip, which is in use and, if a directory, new. */
  ghost predicate Enters(s: State, s': State, dp: int, name: string, ip: int) {
    && Alive(s, dp) && !Present(s.inodes[dp].des, name) && ip != 0 && ip != dp
    && s'.inodes.Keys == s.inodes.Keys && ip in s.inodes && s'.inodes[ip].typ != 0 && ip != ROOTINO
    && s'.inodes[dp].des == Link(s.inodes[dp].des, name, ip) && s'.inodes[dp].typ == T_DIR
    && (forall x :: x in s.inodes && x != ip ==> s'.inodes[x].typ == s.inodes[x].typ && (x != dp ==> s'.inodes[x] == s.inodes[x]))
    && (forall x :: x in s.inodes && x != ip ==> (Alive(s', x) <==> Alive(s, x)))
    && (if s'.inodes[ip].typ == T_DIR then
          && Alive(s', ip) && s'.inodes[ip].des == [Dirent(ip, "."), Dirent(dp, "..")] && s.inodes[ip].typ == 0
          && Names(s, ip) == 0
        else s'.inodes[ip].des == [] && s.inodes[ip].des == [] && s.inodes[ip].typ != T_DIR)
  }

  lemma EnterNode(s: State, s': State, dp: int, name: string, ip: int, x: int)
    requires Tree(s) && Enters(s, s', dp, name, ip) && x in s'.inodes
    ensures NodeOk(s', x)
  {
    LinkShape(s, dp, name, ip);
    hide Tree, Alive, Link, Names, FirstEmpty;
    ShowNode(s, x);
  }

  /** No entry that counts names an inode without names. */
  lemma NoName(s: State, x: int, d: int, k: int)
    requires Tree(s) && Names(s, x) == 0 && Alive(s, d) && 2 <= k < |s.inodes[d].des| && x != 0
    ensures s.inodes[d].des[k].inum != x
  {
    hide Tree, Names;
    ShowNode(s, d);
    if s.inodes[d].des[k].inum == x {
      DotFirst(s, d, k);
      NamesSome(s, d, k, x);
    }
  }

  lemma EnterEntry(s: State, s': State, dp: int, name: string, ip: int, d: int, k: int)
    requires Tree(s) && Enters(s, s', dp, name, ip) && Alive(s', d) && d in s'.inodes && 2 <= k < |s'.inodes[d].des| && s'.inodes[d].des[k].inum != 0
    ensures EntryOk(s', d, k)
  {
    AliveIn(s);
    AliveIn(s');
    LinkShape(s, dp, name, ip);
    hide Tree, Alive, Link, FirstEmpty, Names, Present, Unique;
    var z := FirstEmpty(s.inodes[dp].des, 0);
    if s'.inodes[ip].typ == T_DIR {
      forall j | 2 <= j < |s.inodes[dp].des| ensures s.inodes[dp].des[j].inum != ip { NoName(s, ip, dp, j); }
    }
    if d == dp && k == z {
    } else {
      assert d != ip;
      ShowEntry(s, d, k);
      if s'.inodes[ip].typ == T_DIR { NoName(s, ip, d, k); }
    }
  }

  lemma EnterHome(s: State, s': State, dp: int, name: string, ip: int, c: int)
    requires Tree(s) && Enters(s, s', dp, name, ip) && Alive(s', c) && c in s'.inodes && c != ROOTINO
    ensures |s'.inodes[c].des| >= 2 && HomeOk(s', c)
  {
    AliveIn(s);
    AliveIn(s');
    LinkShape(s, dp, name, ip);
    hide Tree, Alive, Link, FirstEmpty, Names, Present, Unique;
    var z := FirstEmpty(s.inodes[dp].des, 0);
    if c == ip {
      assert s'.inodes[dp].des[z].inum == ip;
    } else {
      ShowHome(s, c);
      ShowNode(s, c);
      if c == dp { assert s'.inodes[c].des[1] == s.inodes[c].des[1]; }
      var p := s.inodes[c].des[1].inum;
      var k :| 2 <= k < |s.inodes[p].des| && s.inodes[p].des[k].inum == c;
      assert s'.inodes[p].des[k].inum == c;
    }
  }

  lemma EnterTree(s: State, s': State, dp: int, name: string, ip: int)
    requires Tree(s) && Enters(s, s', dp, name, ip) && forall i :: i in s'.calls ==> CallOk(s', i)
    ensures Tree(s')
  {
    AliveIn(s);
    AliveIn(s');
    LinkShape(s, dp, name, ip);
    hide Tree, NodeOk, EntryOk, HomeOk, CallOk, Alive, Link, FirstEmpty, Present, Names, Unique;
    ShowRoot(s);
    forall x | x in s'.inodes ensures NodeOk(s', x) { EnterNode(s, s', dp, name, ip, x); }
    forall d, k | Alive(s', d) && 2 <= k < |s'.inodes[d].des| && s'.inodes[d].des[k].inum != 0 ensures EntryOk(s', d, k) {
      EnterEntry(s, s', dp, name, ip, d, k);
    }
    forall c | Alive(s', c) && c != ROOTINO ensures |s'.inodes[c].des| >= 2 && HomeOk(s', c) { EnterHome(s, s', dp, name, ip, c); }
    TreeFrom(s');
  }

  /** How the names of x change. */
  lemma EnterNames(s: State, s': State, dp: int, name: string, ip: int, x: int)
    requires Tree(s) && Enters(s, s', dp, name, ip) && x != 0
    ensures Names(s', x) == Names(s, x) + (if x == ip then 1 else 0) + (if x == dp && s'.inodes[ip].typ == T_DIR then 1 else 0)
  {
    AliveIn(s);
    LinkShape(s, dp, name, ip);
    hide Tree, Alive, Link, FirstEmpty, Present, Names, Unique, Count;
    DotsCount(ip, dp, x);
    NamesAt(s, s', dp, ip, x);
  }

  lemma DotsCount(ip: int, dp: int, x: int)
    requires x != 0
    ensures Count([Dirent(ip, "."), Dirent(dp, "..")], x) == if x == dp then 1 else 0
    ensures Count([], x) == 0
  {
    var des := [Dirent(ip, "."), Dirent(dp, "..")];
    CountNone([], x);
    assert des[..1][..0] == [];
    assert Count(des[..1], x) == 0;
  }

  /** The end of link by call id. */
  ghost predicate Puts(s: State, s': State, id: int, dp: int, name: string) {
    && id in s.calls && s.calls[id].Linking? && Dir(s, dp) && !Present(s.inodes[dp].des, name)
    && s'.calls == s.calls - {id} && s'.inodes == s.inodes[dp := s.inodes[dp].(des := Link(s.inodes[dp].des, name, s.calls[id].ip))]
    && forall x :: Busy(s', x) <==> Busy(s, x)
  }

  lemma LinkDonePuts(s: State, id: int, dp: int, name: string)
    requires Enabled(s, LinkDone(id, dp, name))
    ensures Puts(s, Step(s, LinkDone(id, dp, name)), id, dp, name)
  {
    hide Link, Present;
    var s' := Step(s, LinkDone(id, dp, name));
    forall x ensures Busy(s', x) <==> Busy(s, x) {
      if i :| i in s.calls && s.calls[i] == Unlinking(x) { assert s'.calls[i] == Unlinking(x); }
    }
  }

  lemma PutsEnters(s: State, s': State, id: int, dp: int, name: string)
    requires Tree(s) && Puts(s, s', id, dp, name) && s.inodes[dp].nlink > 0
    ensures Enters(s, s', dp, name, s.calls[id].ip) && s'.inodes[s.calls[id].ip].typ != T_DIR
  {
    hide Tree, Link, Present, Unique, EmptyFrom, Names;
    ShowRoot(s);
    ShowCall(s, id);
    ShowNode(s, s.calls[id].ip);
  }

  lemma PutsCall(s: State, s': State, id: int, dp: int, name: string, i: int)
    requires Tree(s) && Puts(s, s', id, dp, name) && i in s'.calls
    ensures CallOk(s', i)
  {
    hide Tree, Link, Present;
    ShowCall(s, i);
    assert s.calls[i] == Unlinking(dp) ==> Busy(s, dp);
  }

  lemma LinkDoneInv(s: State, s': State, id: int, dp: int, name: string)
    requires Inv(s) && Puts(s, s', id, dp, name) && s.inodes[dp].nlink > 0
    ensures Inv(s')
  {
    var ip := s.calls[id].ip;
    hide *;
    InvTree(s);
    PutsEnters(s, s', id, dp, name);
    EnterKeys(s, s', dp, name, ip);
    forall i | i in s'.calls ensures CallOk(s', i) { PutsCall(s, s', id, dp, name, i); }
    EnterTree(s, s', dp, name, ip);
    forall x | x in s'.inodes ensures Linked(s', x) { PutsLinked(s, s', id, dp, name, x); }
    InvFrom(s');
  }

  lemma EnterKeys(s: State, s': State, dp: int, name: string, ip: int)
    requires Enters(s, s', dp, name, ip)
    ensures s'.inodes.Keys == s.inodes.Keys
  {}

  lemma PutsLinked(s: State, s': State, id: int, dp: int, name: string, x: int)
    requires Inv(s) && Puts(s, s', id, dp, name) && Enters(s, s', dp, name, s.calls[id].ip) && s'.inodes[s.calls[id].ip].typ != T_DIR && x in s.inodes
    ensures x in s'.inodes && Linked(s', x)
  {
    hide Tree, Inv, Names, Credits, Link, Present, Enters, Busy;
    InvTree(s);
    ShowRoot(s);
    ShowLinked(s, x);
    EnterNames(s, s', dp, name, s.calls[id].ip, x);
    CreditDrop(s, id, x);
    CreditCalls(s', s.(calls := s'.calls), x);
  }

  /** A link into an unlinked directory leaves the count one too high. */
  lemma LinkDoneBreaks(s: State, s': State, id: int, dp: int, name: string)
    requires Inv(s) && Puts(s, s', id, dp, name) && s.inodes[dp].nlink <= 0
    ensures s.calls[id].ip in s'.inodes && !Linked(s', s.calls[id].ip)
  {
    hide Tree, Inv, Names, Credits, Link, FirstEmpty, Present, Unique, Busy;
    var ip := s.calls[id].ip;
    InvTree(s);
    ShowCall(s, id);
    ShowLinked(s, ip);
    NamesSame(s, s', ip);
    CreditDrop(s, id, ip);
    CreditCalls(s', s.(calls := s'.calls), ip);
  }

  /** A free inode has no names and is in no call. */
  lemma FreeInode(s: State, ip: int)
    requires Inv(s) && ip in s.inodes && s.inodes[ip].typ == 0
    ensures Names(s, ip) == 0 && Credits(s, ip) == 0 && !Busy(s, ip) && s.inodes[ip].des == [] && ip != 0 && ip != ROOTINO
    ensures forall i :: i in s.calls ==> s.calls[i].ip != ip
  {
    hide Tree, Inv, Names, Credits;
    InvTree(s);
    ShowRoot(s);
    ShowNode(s, ip);
    ShowLinked(s, ip);
    forall i | i in s.calls ensures s.calls[i].ip != ip { ShowCall(s, i); }
  }

  /** create of ip in dp. */
  ghost predicate Makes(s: State, s': State, dp: int, name: string, typ: int, ip: int) {
    && Dir(s, dp) && !Present(s.inodes[dp].des, name) && ip in s.inodes && s.inodes[ip].typ == 0 && typ != 0 && ip != dp
    && s'.calls == s.calls && s'.inodes.Keys == s.inodes.Keys
    && s'.inodes[ip] == Inode(typ, 1, if typ == T_DIR then [Dirent(ip, "."), Dirent(dp, "..")] else [])
    && s'.inodes[dp] == Inode(T_DIR, s.inodes[dp].nlink + (if typ == T_DIR then 1 else 0), Link(s.inodes[dp].des, name, ip))
    && (forall x :: x in s.inodes && x != dp && x != ip ==> s'.inodes[x] == s.inodes[x])
    && forall x :: Busy(s', x) <==> Busy(s, x)
  }

  lemma CreateMakes(s: State, dp: int, name: string, typ: int, ip: int)
    requires Enabled(s, Create(dp, name, typ, ip))
    ensures Makes(s, Step(s, Create(dp, name, typ, ip)), dp, name, typ, ip)
  {
    hide Link, Present;
    var s' := Step(s, Create(dp, name, typ, ip));
    assert forall x :: Busy(s', x) <==> Busy(s, x);
  }

  lemma MakesEnters(s: State, s': State, dp: int, name: string, typ: int, ip: int)
    requires Inv(s) && Makes(s, s', dp, name, typ, ip) && s.inodes[dp].nlink > 0
    ensures Enters(s, s', dp, name, ip)
  {
    hide Tree, Link, Present, Unique, EmptyFrom, Names, Inv, Credits, Busy;
    InvTree(s);
    FreeInode(s, ip);
  }

  lemma MakesCall(s: State, s': State, dp: int, name: string, typ: int, ip: int, i: int)
    requires Inv(s) && Makes(s, s', dp, name, typ, ip) && i in s'.calls
    ensures CallOk(s', i)
  {
    hide Tree, Link, Present, Inv, Credits, Names;
    InvTree(s);
    FreeInode(s, ip);
    ShowCall(s, i);
    assert s.calls[i] == Unlinking(dp) ==> Busy(s, dp);
  }

  lemma CreateInv(s: State, s': State, dp: int, name: string, typ: int, ip: int)
    requires Inv(s) && Makes(s, s', dp, name, typ, ip) && s.inodes[dp].nlink > 0
    ensures Inv(s')
  {
    hide *;
    InvTree(s);
    MakesEnters(s, s', dp, name, typ, ip);
    EnterKeys(s, s', dp, name, ip);
    forall i | i in s'.calls ensures CallOk(s', i) { MakesCall(s, s', dp, name, typ, ip, i); }
    EnterTree(s, s', dp, name, ip);
    forall x | x in s'.inodes ensures Linked(s', x) { MakesLinked(s, s', dp, name, typ, ip, x); }
    InvFrom(s');
  }

  lemma MakesLinked(s: State, s': State, dp: int, name: string, typ: int, ip: int, x: int)
    requires Inv(s) && Makes(s, s', dp, name, typ, ip) && Enters(s, s', dp, name, ip) && x in s.inodes
    ensures x in s'.inodes && Linked(s', x)
  {
    hide Tree, Inv, Names, Credits, Link, Present, Enters, Busy;
    InvTree(s);
    ShowRoot(s);
    FreeInode(s, ip);
    ShowLinked(s, x);
    EnterNames(s, s', dp, name, ip, x);
    CreditCalls(s', s, x);
  }

  /** A file created in an unlinked directory has a link that does not count; a directory
      revives its parent, whose ".." then counts for a grandparent that has forgotten it. */
  lemma CreateBreaks(s: State, s': State, dp: int, name: string, typ: int, ip: int)
    requires Inv(s) && Makes(s, s', dp, name, typ, ip) && s.inodes[dp].nlink == 0
    ensures |s.inodes[dp].des| >= 2
    ensures var x := if typ == T_DIR then s.inodes[dp].des[1].inum else ip; x in s'.inodes && !Linked(s', x)
  {
    hide Tree, Inv, Names, Credits, Link, FirstEmpty, Present, Unique, Busy;
    InvTree(s);
    FreeInode(s, ip);
    ShowNode(s, dp);
    if typ != T_DIR {
      NamesSame(s, s', ip);
      CreditCalls(s', s, ip);
    } else {
      CreateDirBreaks(s, s', dp, name, ip);
    }
  }

  lemma CreateDirBreaks(s: State, s': State, dp: int, name: string, ip: int)
    requires Inv(s) && Makes(s, s', dp, name, T_DIR, ip) && s.inodes[dp].nlink == 0 && |s.inodes[dp].des| >= 2 && s.inodes[dp].des[1].inum in s.inodes
    ensures s.inodes[dp].des[1].inum in s'.inodes && !Linked(s', s.inodes[dp].des[1].inum)
  {
    var p := s.inodes[dp].des[1].inum;
    hide Tree, Inv, Names, Credits, Link, FirstEmpty, Present, Unique, Busy, Count;
    InvTree(s);
    FreeInode(s, ip);
    ShowRoot(s);
    ShowNode(s, dp);
    LinkShape(s, dp, name, ip);
    NamesAt(s, s', dp, ip, p);
    DotsCount(ip, dp, p);
    CountSome(s'.inodes[dp].des, 1, p);
    CreditCalls(s', s, p);
    ShowLinked(s, p);
    if p == ip { CountTwo(s'.inodes[dp].des, 1, FirstEmpty(s.inodes[dp].des, 0), p); }
  }

  lemma CountTwo(des: seq<Dirent>, j: int, k: int, x: int)
    requires 0 <= j < |des| && 0 <= k < |des| && j != k && Naming(des[j], x) == 1 && Naming(des[k], x) == 1
    ensures Count(des, x) >= 2
  {
    CountSet(des, j, Dirent(0, ""), x);
    CountSome(des[j := Dirent(0, "")], k, x);
  }

  /** The first half of unlink by call id, of entry k of dp. */
  ghost predicate Cuts(s: State, s': State, id: int, dp: int, k: int, ip: int) {
    && id !in s.calls && Alive(s, dp) && 2 <= k < |s.inodes[dp].des| && s.inodes[dp].des[k].inum == ip && ip != 0 && ip != dp
    && ip in s.inodes && !Busy(s, ip) && (s.inodes[ip].typ == T_DIR ==> EmptyFrom(s.inodes[ip].des, 2))
    && s'.calls == s.calls[id := Unlinking(ip)]
    && s'.inodes == s.inodes[dp := Inode(T_DIR, s.inodes[dp].nlink - (if s.inodes[ip].typ == T_DIR then 1 else 0), Clear(s.inodes[dp].des, k))]
    && forall x :: Busy(s', x) <==> Busy(s, x) || x == ip
  }

  lemma UnlinkCuts(s: State, id: int, dp: int, k: int)
    requires Tree(s) && Enabled(s, UnlinkStart(id, dp, k))
    ensures Cuts(s, Step(s, UnlinkStart(id, dp, k)), id, dp, k, s.inodes[dp].des[k].inum)
    ensures EntryOk(s, dp, k)
  {
    var s' := Step(s, UnlinkStart(id, dp, k));
    var ip := s.inodes[dp].des[k].inum;
    hide Tree, Clear, Unique;
    ShowNode(s, dp);
    assert k >= 2;
    assert Alive(s, dp);
    ShowEntry(s, dp, k);
    ShowNode(s, ip);
    forall x ensures Busy(s', x) <==> Busy(s, x) || x == ip {
      if i :| i in s.calls && s.calls[i] == Unlinking(x) { assert s'.calls[i] == Unlinking(x); }
      if x == ip { assert s'.calls[id] == Unlinking(x); }
    }
  }

  /** An empty directory other than the root is named by its parent alone. */
  lemma OnlyName(s: State, dp: int, k: int, ip: int, d: int)
    requires Tree(s) && Alive(s, dp) && 2 <= k < |s.inodes[dp].des| && s.inodes[dp].des[k].inum == ip && ip != 0 && ip in s.inodes
    requires s.inodes[ip].typ == T_DIR && EmptyFrom(s.inodes[ip].des, 2) && d in s.inodes
    ensures Weight(s, d, ip) == if d == dp then 1 else 0
  {
    hide Tree, Busy, Unique, Count;
    ShowEntry(s, dp, k);
    ShowNode(s, d);
    ShowNode(s, ip);
    ShowRoot(s);
    if Alive(s, d) {
      var des := s.inodes[d].des;
      if des[1].inum == ip {
        if d != ROOTINO { ShowHome(s, d); }
        assert false;
      }
      forall j | 0 <= j < |des| && !(d == dp && j == k) ensures Naming(des[j], ip) == 0 {
        if j >= 2 && des[j].inum == ip { ShowEntry(s, d, j); }
      }
      if d == dp {
        DotFirst(s, dp, k);
        CountOne(des, k, ip);
      } else {
        CountNone(des, ip);
      }
    }
  }

  lemma OneLink(s: State, dp: int, k: int, ip: int)
    requires Inv(s) && Alive(s, dp) && 2 <= k < |s.inodes[dp].des| && s.inodes[dp].des[k].inum == ip && ip != 0 && ip in s.inodes
    requires s.inodes[ip].typ == T_DIR && EmptyFrom(s.inodes[ip].des, 2) && !Busy(s, ip)
    ensures s.inodes[ip].nlink == 1 && Names(s, ip) == 1
  {
    AliveIn(s);
    hide Tree, Inv, Weight, Credits, Alive, Busy;
    InvTree(s);
    ShowLinked(s, ip);
    forall d | d in s.inodes ensures Weight(s, d, ip) == if d == dp then 1 else 0 { OnlyName(s, dp, k, ip, d); }
    var w := Weights(s, ip);
    SumAt(w, dp);
    SumBound(w - {dp}, 0);
    NoCredits(s, ip);
  }

  lemma NoCredits(s: State, ip: int)
    requires Tree(s) && ip in s.inodes && s.inodes[ip].typ == T_DIR && !Busy(s, ip)
    ensures Credits(s, ip) == 0
  {
    hide Tree;
    forall id | id in s.calls ensures s.calls[id].ip != ip {
      ShowCall(s, id);
      assert s.calls[id] == Unlinking(ip) ==> Busy(s, ip);
    }
    assert Crediting(s.calls, ip) == {};
  }

  /** A directory with a subdirectory has two links. */
  lemma TwoLinks(s: State, dp: int, k: int, ip: int)
    requires Inv(s) && Alive(s, dp) && 2 <= k < |s.inodes[dp].des| && s.inodes[dp].des[k].inum == ip && ip != 0 && ip in s.inodes
    requires s.inodes[ip].typ == T_DIR && EmptyFrom(s.inodes[ip].des, 2) && !Busy(s, ip)
    ensures s.inodes[dp].nlink >= 2
  {
    OneLink(s, dp, k, ip);
    hide Tree, Inv, Credits, Unique, Names, Count;
    InvTree(s);
    ShowRoot(s);
    ShowEntry(s, dp, k);
    ShowNode(s, ip);
    ShowNode(s, dp);
    ShowLinked(s, dp);
    NamesSome(s, ip, 1, dp);
    var q := dp;
    if dp == ROOTINO {
      NamesSome(s, dp, 1, dp);
    } else {
      ShowHome(s, dp);
      q := s.inodes[dp].des[1].inum;
      ShowNode(s, q);
      var j :| 2 <= j < |s.inodes[q].des| && s.inodes[q].des[j].inum == dp;
      DotFirst(s, q, j);
      NamesSome(s, q, j, dp);
    }
    NamesTwo(s, q, ip, dp);
  }

  lemma NamesTwo(s: State, d: int, e: int, x: int)
    requires d in s.inodes && e in s.inodes && d != e
    ensures Names(s, x) >= Weight(s, d, x) + Weight(s, e, x)
  {
    hide Weight;
    SumAt(Weights(s, x), d);
    SumAt(Weights(s, x) - {d}, e);
  }

  lemma CutAlive(s: State, s': State, id: int, dp: int, k: int, ip: int)
    requires Inv(s) && Cuts(s, s', id, dp, k, ip)
    ensures forall x :: Alive(s', x) <==> Alive(s, x) && x != ip
    ensures s.inodes[ip].nlink >= 1 && (s.inodes[ip].typ == T_DIR ==> s.inodes[ip].nlink == 1)
  {
    hide Inv, Tree, Clear, EmptyFrom, Busy, Names, Credits;
    InvTree(s);
    ShowLinked(s, ip);
    ShowNode(s, dp);
    DotFirst(s, dp, k);
    NamesSome(s, dp, k, ip);
    if s.inodes[ip].typ == T_DIR {
      TwoLinks(s, dp, k, ip);
      OneLink(s, dp, k, ip);
    }
  }

  /** Cuts, and which directories count afterwards. */
  ghost predicate Cut(s: State, s': State, id: int, dp: int, k: int, ip: int) {
    Cuts(s, s', id, dp, k, ip) && EntryOk(s, dp, k) && forall x :: Alive(s', x) <==> Alive(s, x) && x != ip
  }

  lemma CutNode(s: State, s': State, id: int, dp: int, k: int, ip: int, x: int)
    requires Tree(s) && Cut(s, s', id, dp, k, ip) && x in s'.inodes
    ensures NodeOk(s', x)
  {
    AliveIn(s);
    hide Tree, Alive, Busy, EntryOk, AsMap;
    ShowNode(s, x);
    if x == dp { ClearIsRemove(s.inodes[dp].des, k); }
  }

  lemma CutEntry(s: State, s': State, id: int, dp: int, k: int, ip: int, d: int, j: int)
    requires Tree(s) && Cut(s, s', id, dp, k, ip) && Alive(s', d) && d in s'.inodes && 2 <= j < |s'.inodes[d].des| && s'.inodes[d].des[j].inum != 0
    ensures EntryOk(s', d, j)
  {
    AliveIn(s);
    hide Tree, Alive, Busy;
    ShowEntry(s, d, j);
    ShowNode(s, dp);
  }

  lemma CutHome(s: State, s': State, id: int, dp: int, k: int, ip: int, c: int)
    requires Tree(s) && Cut(s, s', id, dp, k, ip) && Alive(s', c) && c in s'.inodes && c != ROOTINO
    ensures |s'.inodes[c].des| >= 2 && HomeOk(s', c)
  {
    AliveIn(s);
    hide Tree, Alive, Busy;
    ShowHome(s, c);
    ShowNode(s, c);
    var p := s.inodes[c].des[1].inum;
    ShowNode(s, p);
    var j :| 2 <= j < |s.inodes[p].des| && s.inodes[p].des[j].inum == c;
    assert s'.inodes[p].des[j].inum == c;
  }

  lemma CutCall(s: State, s': State, id: int, dp: int, k: int, ip: int, i: int)
    requires Tree(s) && Cut(s, s', id, dp, k, ip) && i in s'.calls && (s.inodes[ip].typ == T_DIR ==> s.inodes[ip].nlink == 1)
    ensures CallOk(s', i)
  {
    hide Tree, Clear;
    if i != id {
      ShowCall(s, i);
      assert s.calls[i] == Unlinking(dp) ==> Busy(s, dp);
    }
    assert forall j :: j in s.calls && s.calls[j] == Unlinking(ip) ==> Busy(s, ip);
  }

  lemma CutTree(s: State, s': State, id: int, dp: int, k: int, ip: int)
    requires Tree(s) && Cut(s, s', id, dp, k, ip) && (s.inodes[ip].typ == T_DIR ==> s.inodes[ip].nlink == 1)
    ensures Tree(s')
  {
    AliveIn(s);
    AliveIn(s');
    hide Tree, NodeOk, HomeOk, CallOk, Alive, Busy;
    ShowRoot(s);
    forall x | x in s'.inodes ensures NodeOk(s', x) { CutNode(s, s', id, dp, k, ip, x); }
    hide EntryOk;
    forall d, j | Alive(s', d) && 2 <= j < |s'.inodes[d].des| && s'.inodes[d].des[j].inum != 0 ensures EntryOk(s', d, j) {
      CutEntry(s, s', id, dp, k, ip, d, j);
    }
    forall c | Alive(s', c) && c != ROOTINO ensures |s'.inodes[c].des| >= 2 && HomeOk(s', c) { CutHome(s, s', id, dp, k, ip, c); }
    forall i | i in s'.calls ensures CallOk(s', i) { CutCall(s, s', id, dp, k, ip, i); }
    TreeFrom(s');
  }

  /** How the names of x change. */
  lemma CutNames(s: State, s': State, id: int, dp: int, k: int, ip: int, x: int)
    requires Tree(s) && Cut(s, s', id, dp, k, ip) && x != 0
    requires s.inodes[ip].typ == T_DIR ==> s.inodes[ip].nlink == 1
    ensures Names(s', x) == Names(s, x) - (if x == ip then 1 else 0) - (if x == dp && s.inodes[ip].typ == T_DIR then 1 else 0)
  {
    hide Tree, Busy, Names, Count, Unique;
    ShowNode(s, dp);
    ShowNode(s, ip);
    DotFirst(s, dp, k);
    CountSet(s.inodes[dp].des, k, Dirent(0, ""), x);
    if s.inodes[ip].typ == T_DIR { EmptyCount(s.inodes[ip].des, x); }
    NamesAt(s, s', dp, ip, x);
  }

  /** An empty directory names its parent. */
  lemma EmptyCount(des: seq<Dirent>, x: int)
    requires |des| >= 2 && des[0].name == "." && des[1].name == ".." && EmptyFrom(des, 2) && x != 0
    ensures Count(des, x) == if des[1].inum == x then 1 else 0
  {
    if des[1].inum == x { CountOne(des, 1, x); } else { CountNone(des, x); }
  }

  lemma UnlinkStartInv(s: State, s': State, id: int, dp: int, k: int, ip: int)
    requires Inv(s) && Cuts(s, s', id, dp, k, ip) && EntryOk(s, dp, k)
    ensures Inv(s')
  {
    hide Inv, Tree, Names, Credits, EntryOk, Alive, Busy;
    CutAlive(s, s', id, dp, k, ip);
    assert Cut(s, s', id, dp, k, ip);
    InvTree(s);
    CutTree(s, s', id, dp, k, ip);
    forall x | x in s'.inodes ensures Linked(s', x) { CutLinked(s, s', id, dp, k, ip, x); }
    InvFrom(s');
  }

  lemma CutLinked(s: State, s': State, id: int, dp: int, k: int, ip: int, x: int)
    requires Inv(s) && Cut(s, s', id, dp, k, ip) && x in s'.inodes && (s.inodes[ip].typ == T_DIR ==> s.inodes[ip].nlink == 1)
    ensures Linked(s', x)
  {
    AliveIn(s);
    hide Inv, Tree, Names, Credits, EntryOk, Alive, Busy;
    InvTree(s);
    ShowRoot(s);
    ShowLinked(s, x);
    CutNames(s, s', id, dp, k, ip, x);
    CreditAdd(s, id, Unlinking(ip), x);
    CreditCalls(s', s.(calls := s'.calls), x);
  }

  /** The entry goes into a directory that is still linked. */
  ghost predicate Proper(s: State, e: Event)
    requires Enabled(s, e)
  {
    match e
    case LinkDone(id, dp, name) => s.inodes[dp].nlink > 0
    case Create(dp, name, typ, ip) => s.inodes[dp].nlink > 0
    case _ => true
  }

  /** Link counts are kept by every step exactly when it adds no entry to an unlinked directory. */
  lemma StepIff(s: State, e: Event)
    requires Inv(s) && Enabled(s, e)
    ensures if Proper(s, e) then Inv(Step(s, e)) else exists x :: x in Step(s, e).inodes && !Linked(Step(s, e), x)
  {
    hide Inv, Tree, Names, Credits, Alive, Busy, Link, Clear, Present, Unique, Linked;
    InvTree(s);
    match e
    case LinkStart(id, ip) => LinkStartInv(s, id, ip);
    case LinkDone(id, dp, name) => {
      LinkDonePuts(s, id, dp, name);
      if s.inodes[dp].nlink > 0 { LinkDoneInv(s, Step(s, e), id, dp, name); } else { LinkDoneBreaks(s, Step(s, e), id, dp, name); }
    }
    case LinkFail(id) => LinkFailInv(s, id);
    case UnlinkStart(id, dp, k) => {
      UnlinkCuts(s, id, dp, k);
      UnlinkStartInv(s, Step(s, e), id, dp, k, s.inodes[dp].des[k].inum);
    }
    case UnlinkDone(id) => UnlinkDoneInv(s, id);
    case Create(dp, name, typ, ip) => {
      CreateMakes(s, dp, name, typ, ip);
      if s.inodes[dp].nlink > 0 { CreateInv(s, Step(s, e), dp, name, typ, ip); } else {
        NoDebt(s, dp);
        CreateBreaks(s, Step(s, e), dp, name, typ, ip);
      }
    }
    case Free(x) => FreeInv(s, x);
  }

  lemma NoDebt(s: State, x: int)
    requires Inv(s) && x in s.inodes
    ensures s.inodes[x].nlink >= 0
  {
    ShowLinked(s, x);
  }

  function FreshNode(x: int): Inode {
    if x == ROOTINO then Inode(T_DIR, 1, [Dirent(1, "."), Dirent(1, "..")]) else Inode(0, 0, [])
  }

  /** An empty file system with n inodes. */
  function Fresh(n: nat): (s: State)
    requires n > 0
    ensures s.calls == map[] && forall x :: x in s.inodes <==> 1 <= x <= n
    ensures forall x :: x in s.inodes ==> s.inodes[x] == FreshNode(x)
  {
    State(map x {:trigger FreshNode(x)} | 1 <= x <= n :: FreshNode(x), map[])
  }

  lemma FreshTree(n: nat)
    requires n > 0
    ensures Tree(Fresh(n))
  {
    var s := Fresh(n);
    hide Fresh;
    assert forall x :: !Busy(s, x);
    assert Alive(s, ROOTINO);
    hide Busy;
    forall x | x in s.inodes ensures NodeOk(s, x) {}
    TreeFrom(s);
  }

  lemma FreshInv(n: nat)
    requires n > 0
    ensures Inv(Fresh(n))
  {
    var s := Fresh(n);
    FreshTree(n);
    hide Tree, Fresh;
    assert forall x :: !Busy(s, x);
    hide Busy;
    forall x | x in s.inodes ensures Linked(s, x) {
      FreshNames(n, x);
      NoCalls(s, x);
    }
    InvFrom(s);
  }

  lemma FreshNames(n: nat, x: int)
    requires n > 0 && x in Fresh(n).inodes
    ensures Names(Fresh(n), x) == if x == ROOTINO then 1 else 0
  {
    var s := Fresh(n);
    hide Fresh;
    assert !Busy(s, ROOTINO);
    DotsCount(1, 1, x);
    forall d | d in s.inodes ensures Weight(s, d, x) == if d == ROOTINO && x == ROOTINO then 1 else 0 {}
    hide Weight;
    SumAt(Weights(s, x), ROOTINO);
    SumBound(Weights(s, x) - {ROOTINO}, 0);
  }

  lemma NoCalls(s: State, x: int)
    requires s.calls == map[]
    ensures Credits(s, x) == 0
  {}

  ghost predicate Possible(s: State, es: seq<Event>)
    decreases |es|, 0
  {
    es == [] || (Possible(s, es[..|es| - 1]) && Enabled(After(s, es[..|es| - 1]), es[|es| - 1]))
  }

  ghost function After(s: State, es: seq<Event>): State
    requires Possible(s, es)
    decreases |es|, 1
  {
    if es == [] then s else Step(After(s, es[..|es| - 1]), es[|es| - 1])
  }

  ghost predicate AllProper(s: State, es: seq<Event>)
    requires Possible(s, es)
    decreases |es|
  {
    es == [] || (AllProper(s, es[..|es| - 1]) && Proper(After(s, es[..|es| - 1]), es[|es| - 1]))
  }

  lemma {:induction false} RunInv(s: State, es: seq<Event>)
    requires Inv(s) && Possible(s, es) && AllProper(s, es)
    ensures Inv(After(s, es))
    decreases |es|
  {
    hide Inv, Enabled, Step, Proper;
    if es != [] {
      RunInv(s, es[..|es| - 1]);
      StepIff(After(s, es[..|es| - 1]), es[|es| - 1]);
    }
  }

  /** Between calls an inode's link count is the number of entries that name it, other than
      "." and those in unlinked directories, and a directory's names are distinct. */
  lemma LinkCounts(s: State, es: seq<Event>, x: int)
    requires Inv(s) && Possible(s, es) && AllProper(s, es) && After(s, es).calls == map[] && x in After(s, es).inodes
    ensures var t := After(s, es);
            && t.inodes[x].nlink == Names(t, x) && (t.inodes[x].typ == T_DIR ==> Unique(t.inodes[x].des))
            && forall d :: Alive(t, d) <==> d in t.inodes && t.inodes[d].typ == T_DIR && t.inodes[d].nlink > 0
  {
    RunInv(s, es);
    var t := After(s, es);
    hide Inv, Tree, Names, Possible, After, AllProper;
    InvTree(t);
    ShowLinked(t, x);
    ShowNode(t, x);
    NoCalls(t, x);
  }

  /** Three inodes: the root, a directory in it and its removal. */
  function Three(root: Inode, d: Inode, calls: map<int, Call>): State {
    State(map[1 := root, 2 := d, 3 := Inode(0, 0, [])], calls)
  }

  function Dots(x: int): seq<Dirent> {
    [Dirent(x, "."), Dirent(1, "..")]
  }

  lemma ThreeIs()
    ensures Fresh(3) == Three(Inode(T_DIR, 1, Dots(1)), Inode(0, 0, []), map[])
  {}

  lemma MakeD()
    ensures var s := Three(Inode(T_DIR, 1, Dots(1)), Inode(0, 0, []), map[]);
            && Enabled(s, Create(1, "d", T_DIR, 2)) && Proper(s, Create(1, "d", T_DIR, 2))
            && Step(s, Create(1, "d", T_DIR, 2)) == Three(Inode(T_DIR, 2, Dots(1) + [Dirent(2, "d")]), Inode(T_DIR, 1, Dots(2)), map[])
  {
    var s := Three(Inode(T_DIR, 1, Dots(1)), Inode(0, 0, []), map[]);
    assert FirstEmpty(Dots(1), 0) == 2;
    assert Link(Dots(1), "d", 2) == Dots(1) + [Dirent(2, "d")];
  }

  lemma RemoveD()
    ensures var s := Three(Inode(T_DIR, 2, Dots(1) + [Dirent(2, "d")]), Inode(T_DIR, 1, Dots(2)), map[]);
            && Enabled(s, UnlinkStart(0, 1, 2)) && Enabled(Step(s, UnlinkStart(0, 1, 2)), UnlinkDone(0))
            && Proper(s, UnlinkStart(0, 1, 2)) && Proper(Step(s, UnlinkStart(0, 1, 2)), UnlinkDone(0))
            && Step(Step(s, UnlinkStart(0, 1, 2)), UnlinkDone(0)) == Three(Inode(T_DIR, 1, Dots(1) + [Dirent(0, "")]), Inode(T_DIR, 0, Dots(2)), map[])
  {
    var s := Three(Inode(T_DIR, 2, Dots(1) + [Dirent(2, "d")]), Inode(T_DIR, 1, Dots(2)), map[]);
    var s1 := Step(s, UnlinkStart(0, 1, 2));
    assert Clear(Dots(1) + [Dirent(2, "d")], 2) == Dots(1) + [Dirent(0, "")];
    assert s1 == Three(Inode(T_DIR, 1, Dots(1) + [Dirent(0, "")]), Inode(T_DIR, 1, Dots(2)), map[0 := Unlinking(2)]);
    assert s1.calls - {0} == map[];
  }

  lemma UseD()
    ensures var s := Three(Inode(T_DIR, 1, Dots(1) + [Dirent(0, "")]), Inode(T_DIR, 0, Dots(2)), map[]);
            Enabled(s, Create(2, "f", 2, 3)) && !Proper(s, Create(2, "f", 2, 3))
  {}

  /** Removing a directory and creating a file in it through a handle breaks the count. */
  lemma CreateInRemoved()
    ensures var es := [Create(1, "d", T_DIR, 2), UnlinkStart(0, 1, 2), UnlinkDone(0), Create(2, "f", 2, 3)];
            Possible(Fresh(3), es) && !Inv(After(Fresh(3), es))
  {
    var s0 := Fresh(3);
    var e1, e2, e3, e4 := Create(1, "d", T_DIR, 2), UnlinkStart(0, 1, 2), UnlinkDone(0), Create(2, "f", 2, 3);
    hide *;
    ThreeIs();
    MakeD();
    RemoveD();
    UseD();
    FreshInv(3);
    var s1 := Step(s0, e1);
    StepIff(s0, e1);
    StepIff(s1, e2);
    var s2 := Step(s1, e2);
    StepIff(s2, e3);
    var s3 := Step(s2, e3);
    StepIff(s3, e4);
    Runs4(s0, e1, e2, e3, e4);
    Unlinked(Step(s3, e4));
  }

  lemma Unlinked(s: State)
    requires exists x :: x in s.inodes && !Linked(s, x)
    ensures !Inv(s)
  {}

  lemma Runs4(s: State, e1: Event, e2: Event, e3: Event, e4: Event)
    requires Enabled(s, e1) && Enabled(Step(s, e1), e2) && Enabled(Step(Step(s, e1), e2), e3)
    requires Enabled(Step(Step(Step(s, e1), e2), e3), e4)
    ensures Possible(s, [e1, e2, e3, e4]) && After(s, [e1, e2, e3, e4]) == Step(Step(Step(Step(s, e1), e2), e3), e4)
  {
    hide Enabled, Step;
    Extend(s, [], e1);
    assert [] + [e1] == [e1];
    Extend(s, [e1], e2);
    assert [e1] + [e2] == [e1, e2];
    Extend(s, [e1, e2], e3);
    assert [e1, e2] + [e3] == [e1, e2, e3];
    Extend(s, [e1, e2, e3], e4);
    assert [e1, e2, e3] + [e4] == [e1, e2, e3, e4];
  }

  lemma Extend(s: State, es: seq<Event>, e: Event)
    requires Possible(s, es) && Enabled(After(s, es), e)
    ensures Possible(s, es + [e]) && After(s, es + [e]) == Step(After(s, es), e)
  {
    assert (es + [e])[..|es|] == es;
  }
}
