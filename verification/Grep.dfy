/** grep.c's matcher against the declarative meaning of a pattern. */
module Grep {
  /** One character or a repeated one; '.' stands for any character. */
  datatype Item = One(c: char) | Star(c: char)

  /** The items of a pattern without its leading '^', and whether it ends in '$'. */
  datatype Pattern = Pattern(items: seq<Item>, end: bool)

  /** How a pattern is read: '*' applies to the character before it, '$' is special only as
      the last character. */
  function Read(re: string): Pattern {
    if re == "" then Pattern([], false)
    else if |re| >= 2 && re[1] == '*' then var p := Read(re[2..]); p.(items := [Star(re[0])] + p.items)
    else if re == "$" then Pattern([], true)
    else var p := Read(re[1..]); p.(items := [One(re[0])] + p.items)
  }

  function Print(p: Pattern): string
    decreases |p.items|
  {
    if p.items == [] then (if p.end then "$" else "")
    else (if p.items[0].One? then [p.items[0].c] else [p.items[0].c, '*']) + Print(p.(items := p.items[1..]))
  }

  /** No single character stands before a star, and the last one is no dollar sign unless another ends the pattern. */
  predicate Legal(p: Pattern)
    decreases |p.items|
  {
    p.items == [] ||
    (&& Legal(p.(items := p.items[1..]))
     && (p.items[0].One? ==> if |p.items| > 1 then p.items[1].c != '*' else p.end || p.items[0].c != '$'))
  }

  /** Every text is the text of the pattern it is read as. */
  lemma {:induction false} PrintRead(re: string)
    ensures Print(Read(re)) == re && Legal(Read(re))
    decreases |re|
  {
    if re != "" && re != "$" {
      var k := if |re| >= 2 && re[1] == '*' then 2 else 1;
      var p, q := Read(re[k..]), Read(re);
      PrintRead(re[k..]);
      assert q.items[1..] == p.items && q.(items := p.items) == p;
      assert re == re[..k] + re[k..];
      if |p.items| > 0 { assert Print(p)[0] == p.items[0].c; }
    }
  }

  /** A pattern is read back from its text exactly when it is legal. */
  lemma {:induction false} ReadPrint(p: Pattern)
    ensures Read(Print(p)) == p <==> Legal(p)
    decreases |p.items|
  {
    if p.items != [] {
      var it, q := p.items[0], p.(items := p.items[1..]);
      var k := if it.One? then 1 else 2;
      ReadPrint(q);
      assert Print(p)[k..] == Print(q);
      assert p.items == [it] + q.items;
      if |p.items| > 1 { assert Print(q)[0] == p.items[1].c; }
    }
    if Read(Print(p)) == p { PrintRead(Print(p)); }
  }

  predicate Char(c: char, x: char) {
    c == '.' || c == x
  }

  ghost predicate Fits(it: Item, s: string) {
    (it.One? ==> |s| == 1) && forall k :: 0 <= k < |s| ==> Char(it.c, s[k])
  }

  function Concat(pieces: seq<string>): string {
    if pieces == [] then "" else pieces[0] + Concat(pieces[1..])
  }

  /** The pieces spell out the pattern at the beginning of the text, up to its end if asked. */
  ghost predicate Spells(p: Pattern, text: string, pieces: seq<string>) {
    && |pieces| == |p.items| && (forall i :: 0 <= i < |pieces| ==> Fits(p.items[i], pieces[i]))
    && Concat(pieces) <= text && (p.end ==> Concat(pieces) == text)
  }

  ghost predicate Accepts(p: Pattern, text: string) {
    exists pieces :: Spells(p, text, pieces)
  }

  lemma AcceptsNone(end: bool, text: string)
    ensures Accepts(Pattern([], end), text) <==> (end ==> text == "")
  {
    if end ==> text == "" { assert Spells(Pattern([], end), text, []); }
  }

  /** The first item of a pattern takes the first piece. */
  lemma SpellsFirst(it: Item, p: Pattern, text: string, pieces: seq<string>)
    requires Spells(p.(items := [it] + p.items), text, pieces)
    ensures var k := |pieces[0]|; k <= |text| && Fits(it, text[..k]) && Spells(p, text[k..], pieces[1..])
  {
    hide Fits;
    var q := p.(items := [it] + p.items);
    var k := |pieces[0]|;
    var rest := pieces[1..];
    assert forall i :: 0 <= i < |rest| ==> rest[i] == pieces[i + 1] && q.items[i + 1] == p.items[i];
    assert text[..k] == pieces[0] && Concat(rest) == Concat(pieces)[k..];
    assert q.items[0] == it;
  }

  lemma SpellsMore(it: Item, p: Pattern, text: string, k: nat, rest: seq<string>)
    requires k <= |text| && Fits(it, text[..k]) && Spells(p, text[k..], rest)
    ensures Spells(p.(items := [it] + p.items), text, [text[..k]] + rest)
  {
    hide Fits;
    var pieces := [text[..k]] + rest;
    assert pieces[1..] == rest && text == text[..k] + text[k..];
  }

  /** A first item takes a beginning of the text that fits it and leaves the rest. */
  lemma AcceptsFirst(it: Item, p: Pattern, text: string)
    ensures Accepts(p.(items := [it] + p.items), text) <==>
            exists k :: 0 <= k <= |text| && Fits(it, text[..k]) && Accepts(p, text[k..])
  {
    hide Fits, Spells;
    var q := p.(items := [it] + p.items);
    if pieces :| Spells(q, text, pieces) {
      SpellsSize(q, text, pieces);
      SpellsFirst(it, p, text, pieces);
    }
    if k: nat :| k <= |text| && Fits(it, text[..k]) && Accepts(p, text[k..]) {
      var rest :| Spells(p, text[k..], rest);
      SpellsMore(it, p, text, k, rest);
    }
  }

  lemma SpellsSize(p: Pattern, text: string, pieces: seq<string>)
    requires Spells(p, text, pieces)
    ensures |pieces| == |p.items|
  {}

  lemma AcceptsOne(c: char, p: Pattern, text: string)
    ensures Accepts(p.(items := [One(c)] + p.items), text) <==> text != "" && Char(c, text[0]) && Accepts(p, text[1..])
  {
    AcceptsFirst(One(c), p, text);
    if text != "" && Char(c, text[0]) { assert Fits(One(c), text[..1]); }
  }

  method MatchHere(re: string, text: string) returns (r: bool)
    ensures r <==> Accepts(Read(re), text)
    decreases |re|, 0
  {
    hide Accepts;
    AcceptsNone(false, text);
    AcceptsNone(true, text);
    if re == "" {
      return true;
    }
    if |re| > 1 && re[1] == '*' {
      r := MatchStar(re[0], re[2..], text);
      return;
    }
    if re[0] == '$' && |re| == 1 {
      return text == "";
    }
    AcceptsOne(re[0], Read(re[1..]), text);
    if text != "" && (re[0] == '.' || re[0] == text[0]) {
      r := MatchHere(re[1..], text[1..]);
      return;
    }
    return false;
  }

  method MatchStar(c: char, re: string, text: string) returns (r: bool)
    ensures r <==> var p := Read(re); Accepts(p.(items := [Star(c)] + p.items), text)
    decreases |re|, 1
  {
    hide Accepts;
    ghost var p := Read(re);
    AcceptsFirst(Star(c), p, text);
    var t := 0;
    while true
      invariant 0 <= t <= |text| && Fits(Star(c), text[..t])
      invariant forall k :: 0 <= k < t ==> !Accepts(p, text[k..])
      decreases |text| - t
    {
      var here := MatchHere(re, text[t..]);
      if here {
        return true;
      }
      if !(t < |text| && (text[t] == c || c == '.')) {
        break;
      }
      t := t + 1;
    }
    r := false;
    StarStops(c, text, t);
  }

  lemma StarStops(c: char, text: string, t: nat)
    requires t <= |text| && (t < |text| ==> !Char(c, text[t]))
    ensures forall k :: t < k <= |text| ==> !Fits(Star(c), text[..k])
  {
    forall k | t < k <= |text| ensures !Fits(Star(c), text[..k]) { assert text[..k][t] == text[t]; }
  }

  method Match(re: string, text: string) returns (r: bool)
    ensures r <==>
            if re != "" && re[0] == '^' then Accepts(Read(re[1..]), text)
            else exists i :: 0 <= i <= |text| && Accepts(Read(re), text[i..])
  {
    hide Accepts;
    if re != "" && re[0] == '^' {
      r := MatchHere(re[1..], text);
      return;
    }
    var t := 0;
    while true
      invariant 0 <= t <= |text| && forall k :: 0 <= k < t ==> !Accepts(Read(re), text[k..])
      decreases |text| - t
    {
      var here := MatchHere(re, text[t..]);
      if here {
        return true;
      }
      if t == |text| {
        break;
      }
      t := t + 1;
    }
    r := false;
  }
}
