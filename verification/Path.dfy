/** Path names: skipelem, and the elements of a path. */
module Path {
  const DIRSIZ := 14

  /** A path element as it is stored in a directory. */
  function Truncate(e: string): string {
    if |e| >= DIRSIZ then e[..DIRSIZ] else e
  }

  /** The first place from i on that is a slash (or is not), or the end. */
  function Until(path: string, i: nat, slash: bool): (j: nat)
    requires i <= |path|
    ensures i <= j <= |path| && (j < |path| ==> (path[j] == '/') == slash) && forall k :: i <= k < j ==> (path[k] == '/') != slash
    decreases |path| - i
  {
    if i == |path| || (path[i] == '/') == slash then i else Until(path, i + 1, slash)
  }

  /** The elements that repeated calls of skipelem give. */
  function Elems(path: string): seq<string>
    decreases |path|
  {
    var a := Until(path, 0, false);
    if a == |path| then []
    else
      var b := Until(path, a, true);
      [Truncate(path[a..b])] + Elems(path[Until(path, b, false)..])
  }

  predicate Slashes(s: string) {
    forall k :: 0 <= k < |s| ==> s[k] == '/'
  }

  predicate IsElem(e: string) {
    e != "" && forall k :: 0 <= k < |e| ==> e[k] != '/'
  }

  /** The whole first element of the path stands at a..b; c is where the path goes on behind its slashes. */
  predicate First(path: string, a: int, b: int, c: int) {
    && 0 <= a < b <= c <= |path| && Slashes(path[..a]) && IsElem(path[a..b]) && Slashes(path[b..c])
    && (b < |path| ==> path[b] == '/') && (c < |path| ==> path[c] != '/')
  }

  /** skipelem: the next element and the path after it; none when only slashes are left. */
  method Skipelem(path: string) returns (found: bool, rest: string, name: string)
    ensures found <==> Elems(path) != []
    ensures found ==> Elems(path) == [name] + Elems(rest) && |rest| < |path| && (rest != "" ==> rest[0] != '/')
    ensures found ==> (rest == "" <==> Elems(rest) == [])
    ensures !found ==> Slashes(path)
    ensures found ==> exists a, b, c :: First(path, a, b, c) && rest == path[c..] && name == path[a..if b - a <= DIRSIZ then b else a + DIRSIZ]
  {
    hide Elems, Until;
    var p := 0;
    while p < |path| && path[p] == '/'
      invariant 0 <= p <= |path| && Slashes(path[..p])
    {
      p := p + 1;
    }
    if p == |path| {
      assert path[..p] == path;
      NoElems(path);
      return false, "", "";
    }
    var s := p;
    while p < |path| && path[p] != '/'
      invariant s <= p <= |path| && Slashes(path[..s]) && forall k :: s <= k < p ==> path[k] != '/'
    {
      p := p + 1;
    }
    var len := p - s;
    name := if len >= DIRSIZ then path[s..s + DIRSIZ] else path[s..p];
    ghost var b := p;
    while p < |path| && path[p] == '/'
      invariant b <= p <= |path| && forall k :: b <= k < p ==> path[k] == '/'
    {
      p := p + 1;
    }
    rest := path[p..];
    found := true;
    assert First(path, s, b, p);
    ElemsFirst(path, s, b, p);
    assert name == Truncate(path[s..b]) by { assert len >= DIRSIZ ==> path[s..b][..DIRSIZ] == path[s..s + DIRSIZ]; }
  }

  lemma NoElems(path: string)
    requires Slashes(path)
    ensures Elems(path) == []
  {
    UntilIs(path, 0, |path|, false);
  }

  lemma ElemsFirst(path: string, a: int, b: int, c: int)
    requires First(path, a, b, c)
    ensures Elems(path) == [Truncate(path[a..b])] + Elems(path[c..]) && (path[c..] == "" <==> Elems(path[c..]) == [])
  {
    hide Truncate;
    forall k | 0 <= k < a ensures path[k] == '/' { assert path[..a][k] == path[k]; }
    forall k | a <= k < b ensures path[k] != '/' { assert path[a..b][k - a] == path[k]; }
    forall k | b <= k < c ensures path[k] == '/' { assert path[b..c][k - b] == path[k]; }
    UntilIs(path, 0, a, false);
    UntilIs(path, a, b, true);
    UntilIs(path, b, c, false);
    FirstElem(path);
    var rest := path[c..];
    UntilIs(rest, 0, 0, false);
    FirstElem(rest);
  }

  /** A path written as slashes and elements in turn, ending with slashes. */
  function Spell(seps: seq<string>, es: seq<string>, last: string): string
    requires |seps| == |es|
  {
    if es == [] then last else seps[0] + es[0] + Spell(seps[1..], es[1..], last)
  }

  /** Slashes between elements, and before and after them where there are any. */
  predicate Spelled(seps: seq<string>, es: seq<string>, last: string) {
    && |seps| == |es| && Slashes(last)
    && (forall k :: 0 <= k < |es| ==> IsElem(es[k]) && Slashes(seps[k]))
    && forall k :: 1 <= k < |es| ==> seps[k] != ""
  }

  lemma UntilIs(path: string, i: nat, j: nat, slash: bool)
    requires i <= j <= |path| && (j < |path| ==> (path[j] == '/') == slash) && forall k :: i <= k < j ==> (path[k] == '/') != slash
    ensures Until(path, i, slash) == j
  {}

  /** The path read from behind leading slashes. */
  lemma {:induction false} ElemsFrom(sep: string, rest: string)
    requires Slashes(sep)
    ensures Elems(sep + rest) == Elems(rest)
  {
    hide Until, Truncate, Elems;
    var path := sep + rest;
    var a := Until(rest, 0, false);
    FirstElem(path);
    FirstElem(rest);
    UntilSlashes(sep, rest);
    if a < |rest| {
      var b := Until(rest, a, true);
      UntilShift(sep, rest, a, true);
      UntilShift(sep, rest, b, false);
      var c := Until(rest, b, false);
      Behind(sep, rest, a, b);
      Behind(sep, rest, c, |rest|);
      assert path[|sep| + c..] == path[|sep| + c..|sep| + |rest|] && rest[c..] == rest[c..|rest|];
    }
  }

  /** The first element and those behind it. */
  lemma FirstElem(path: string)
    ensures var a := Until(path, 0, false);
            if a == |path| then Elems(path) == []
            else
              var b := Until(path, a, true);
              Elems(path) == [Truncate(path[a..b])] + Elems(path[Until(path, b, false)..])
  {}

  lemma Behind(sep: string, rest: string, i: nat, j: nat)
    requires i <= j <= |rest|
    ensures (sep + rest)[|sep| + i..|sep| + j] == rest[i..j]
  {}

  lemma UntilShift(sep: string, rest: string, i: nat, slash: bool)
    requires i <= |rest|
    ensures Until(sep + rest, |sep| + i, slash) == |sep| + Until(rest, i, slash)
  {
    var path, j := sep + rest, Until(rest, i, slash);
    forall k | |sep| + i <= k < |sep| + j ensures (path[k] == '/') != slash { assert path[k] == rest[k - |sep|]; }
    UntilIs(path, |sep| + i, |sep| + j, slash);
  }

  lemma UntilSlashes(sep: string, rest: string)
    requires Slashes(sep)
    ensures Until(sep + rest, 0, false) == |sep| + Until(rest, 0, false)
  {
    var path, j := sep + rest, Until(rest, 0, false);
    forall k | 0 <= k < |sep| + j ensures path[k] == '/' { assert k >= |sep| ==> path[k] == rest[k - |sep|]; }
    UntilIs(path, 0, |sep| + j, false);
  }

  lemma {:induction false} ElemsCons(e: string, rest: string)
    requires IsElem(e) && (rest != "" ==> rest[0] == '/')
    ensures Elems(e + rest) == [Truncate(e)] + Elems(rest)
  {
    var path := e + rest;
    UntilIs(path, 0, 0, false);
    UntilIs(path, 0, |e|, true);
    var c := Until(path, |e|, false);
    assert path[0..|e|] == e;
    var sep := path[|e|..c];
    assert rest == sep + path[c..];
    ElemsFrom(sep, path[c..]);
  }

  /** However a path is spelled, its elements are read back in order: one of up to 14 characters as
      itself, a longer one as its first 14. */
  lemma {:induction false} ElemsSpelled(seps: seq<string>, es: seq<string>, last: string)
    requires Spelled(seps, es, last)
    ensures var r := Elems(Spell(seps, es, last));
            |r| == |es| && forall k :: 0 <= k < |es| ==> if |es[k]| <= DIRSIZ then r[k] == es[k] else r[k] == es[k][..DIRSIZ]
    decreases |es|
  {
    if es == [] {
      assert last + "" == last;
      ElemsFrom(last, "");
    } else {
      var rest := Spell(seps[1..], es[1..], last);
      ElemsSpelled(seps[1..], es[1..], last);
      SpellStarts(seps[1..], es[1..], last);
      assert Spell(seps, es, last) == seps[0] + (es[0] + rest);
      ElemsFrom(seps[0], es[0] + rest);
      ElemsCons(es[0], rest);
    }
  }

  lemma SpellStarts(seps: seq<string>, es: seq<string>, last: string)
    requires Spelled(seps, es, last) && (es != [] ==> seps[0] != "")
    ensures var p := Spell(seps, es, last); p != "" ==> p[0] == '/'
  {}
}
