/** Directories as sequences of entries, and as finite maps from names to inode numbers. */
module Dirs {
  /** inum 0 marks an empty entry; names are compared on their first 14 characters. */
  datatype Dirent = Dirent(inum: int, name: string)

  /** No two entries in use have the same name. */
  ghost predicate Unique(des: seq<Dirent>) {
    forall i, j :: 0 <= i < |des| && 0 <= j < |des| && i != j && des[i].inum != 0 && des[j].inum != 0 ==> des[i].name != des[j].name
  }

  predicate Used(de: Dirent, name: string) {
    de.inum != 0 && de.name == name
  }

  /** dirlookup: the least entry from k on in use for the name, or |des|. */
  function Lookup(des: seq<Dirent>, name: string, k: nat): (z: nat)
    requires k <= |des|
    ensures k <= z <= |des| && (z < |des| ==> Used(des[z], name)) && forall c :: k <= c < z ==> !Used(des[c], name)
    decreases |des| - k
  {
    if k == |des| || Used(des[k], name) then k else Lookup(des, name, k + 1)
  }

  /** The least empty entry from k on, or |des|. */
  function FirstEmpty(des: seq<Dirent>, k: nat): (z: nat)
    requires k <= |des|
    ensures k <= z <= |des| && (z < |des| ==> des[z].inum == 0) && forall c :: k <= c < z ==> des[c].inum != 0
    decreases |des| - k
  {
    if k == |des| || des[k].inum == 0 then k else FirstEmpty(des, k + 1)
  }

  /** dirlink of a name that is not present. */
  function Link(des: seq<Dirent>, name: string, inum: int): (r: seq<Dirent>)
    ensures FirstEmpty(des, 0) < |r| && |r| >= |des|
  {
    var z := FirstEmpty(des, 0);
    if z < |des| then des[z := Dirent(inum, name)] else des + [Dirent(inum, name)]
  }

  /** unlink's cleared entry. */
  function Clear(des: seq<Dirent>, k: int): seq<Dirent>
    requires 0 <= k < |des|
  {
    des[k := Dirent(0, "")]
  }

  ghost predicate Present(des: seq<Dirent>, name: string) {
    exists k :: 0 <= k < |des| && Used(des[k], name)
  }

  /** The directory as a map. */
  ghost function AsMap(des: seq<Dirent>): map<string, int> {
    map k | 0 <= k < |des| && des[k].inum != 0 && Lookup(des, des[k].name, 0) < |des| :: des[k].name := des[Lookup(des, des[k].name, 0)].inum
  }

  lemma AsMapAt(des: seq<Dirent>, name: string)
    ensures name in AsMap(des) <==> Present(des, name)
    ensures var z := Lookup(des, name, 0); if z < |des| then name in AsMap(des) && AsMap(des)[name] == des[z].inum else name !in AsMap(des)
  {
    if k :| 0 <= k < |des| && Used(des[k], name) { assert Lookup(des, name, 0) <= k; }
  }

  lemma AsMapIs(des: seq<Dirent>, k: int)
    requires Unique(des) && 0 <= k < |des| && des[k].inum != 0
    ensures des[k].name in AsMap(des) && AsMap(des)[des[k].name] == des[k].inum
  {
    AsMapAt(des, des[k].name);
    assert Used(des[k], des[k].name);
  }

  /** dirlink adds one binding and keeps names unique. */
  lemma LinkIsInsert(des: seq<Dirent>, name: string, inum: int)
    requires Unique(des) && !Present(des, name) && inum != 0
    ensures Unique(Link(des, name, inum)) && AsMap(Link(des, name, inum)) == AsMap(des)[name := inum]
  {
    hide AsMap;
    var r := Link(des, name, inum);
    var z := FirstEmpty(des, 0);
    assert forall i :: 0 <= i < |des| && des[i].inum != 0 ==> i != z && r[i] == des[i] && des[i].name != name by {
      forall i | 0 <= i < |des| && des[i].inum != 0 ensures i != z && r[i] == des[i] && des[i].name != name { assert !Used(des[i], name); }
    }
    forall n ensures n in AsMap(r) <==> n in AsMap(des)[name := inum] { LinkKeys(des, name, inum, n); }
    forall n | n in AsMap(r) ensures AsMap(r)[n] == AsMap(des)[name := inum][n] {
      AsMapAt(r, n);
      var k := Lookup(r, n, 0);
      if n == name {
        AsMapIs(r, z);
      } else {
        AsMapIs(des, k);
      }
    }
  }

  lemma LinkKeys(des: seq<Dirent>, name: string, inum: int, n: string)
    requires Unique(des) && !Present(des, name) && inum != 0
    ensures n in AsMap(Link(des, name, inum)) <==> n in AsMap(des)[name := inum]
  {
    hide AsMap;
    var r := Link(des, name, inum);
    var z := FirstEmpty(des, 0);
    AsMapAt(r, n);
    AsMapAt(des, n);
    assert Used(r[z], name);
    if k :| 0 <= k < |des| && Used(des[k], n) { assert Used(r[k], n); }
    if k :| 0 <= k < |r| && Used(r[k], n) && n != name { assert Used(des[k], n); }
  }

  /** Clearing an entry in use removes one binding. */
  lemma ClearIsRemove(des: seq<Dirent>, k: int)
    requires Unique(des) && 0 <= k < |des| && des[k].inum != 0
    ensures Unique(Clear(des, k)) && AsMap(Clear(des, k)) == AsMap(des) - {des[k].name}
  {
    hide AsMap;
    var r := Clear(des, k);
    var name := des[k].name;
    forall n ensures n in AsMap(r) <==> n in AsMap(des) && n != name {
      AsMapAt(r, n);
      AsMapAt(des, n);
      if i :| 0 <= i < |des| && Used(des[i], n) && n != name { assert Used(r[i], n); }
      if i :| 0 <= i < |r| && Used(r[i], n) { assert Used(des[i], n) && i != k; }
    }
    forall n | n in AsMap(r) ensures AsMap(r)[n] == AsMap(des)[n] {
      AsMapAt(r, n);
      AsMapIs(des, Lookup(r, n, 0));
    }
  }

  /** The entries that name inode x, other than ".". */
  function Naming(de: Dirent, x: int): nat {
    if x != 0 && de.inum == x && de.name != "." then 1 else 0
  }

  function Count(des: seq<Dirent>, x: int): nat {
    if des == [] then 0 else Count(des[..|des| - 1], x) + Naming(des[|des| - 1], x)
  }

  lemma {:induction false} CountSet(des: seq<Dirent>, k: int, de: Dirent, x: int)
    requires 0 <= k < |des|
    ensures Count(des[k := de], x) == Count(des, x) - Naming(des[k], x) + Naming(de, x)
    decreases |des|
  {
    var n := |des| - 1;
    if k == n {
      assert des[k := de][..n] == des[..n];
    } else {
      assert des[k := de][..n] == des[..n][k := de];
      CountSet(des[..n], k, de, x);
    }
  }

  lemma CountLink(des: seq<Dirent>, name: string, inum: int, x: int)
    requires x != 0
    ensures Count(Link(des, name, inum), x) == Count(des, x) + Naming(Dirent(inum, name), x)
  {
    var z := FirstEmpty(des, 0);
    if z < |des| { CountSet(des, z, Dirent(inum, name), x); } else { assert (des + [Dirent(inum, name)])[..|des|] == des; }
  }

  lemma {:induction false} CountSome(des: seq<Dirent>, k: int, x: int)
    requires 0 <= k < |des| && Naming(des[k], x) == 1
    ensures Count(des, x) >= 1
    decreases |des|
  {
    if k < |des| - 1 { CountSome(des[..|des| - 1], k, x); }
  }

  lemma {:induction false} CountNone(des: seq<Dirent>, x: int)
    requires forall k :: 0 <= k < |des| ==> Naming(des[k], x) == 0
    ensures Count(des, x) == 0
    decreases |des|
  {
    if des != [] { CountNone(des[..|des| - 1], x); }
  }

  lemma CountOne(des: seq<Dirent>, k: int, x: int)
    requires 0 <= k < |des| && Naming(des[k], x) == 1 && forall j :: 0 <= j < |des| && j != k ==> Naming(des[j], x) == 0
    ensures Count(des, x) == 1
  {
    CountSet(des, k, Dirent(0, ""), x);
    CountNone(des[k := Dirent(0, "")], x);
  }

  /** Every entry from k on is empty. */
  ghost predicate EmptyFrom(des: seq<Dirent>, k: nat) {
    forall j :: k <= j < |des| ==> des[j].inum == 0
  }
}
