/** sh.c's command lines by their grammar: the tokens a line is written with and the command it stands for. */
module ShSyntax {
  import opened ShGrammar

  /** A command by the texts of its tokens. */
  datatype Tree = TExec(words: seq<string>) | TRedir(t: Tree, file: string, out: bool) | TPipe(l: Tree, r: Tree) | TList(l: Tree, r: Tree) | TBack(t: Tree)

  function Text(s: string, w: Span): string {
    if w.q <= w.eq <= |s| then s[w.q..w.eq] else ""
  }

  function TreeOf(s: string, c: Cmd): Tree {
    match c
    case Exec(argv) => TExec(seq(|argv|, k requires 0 <= k < |argv| => Text(s, argv[k])))
    case Redir(d, r) => TRedir(TreeOf(s, d), Text(s, r.file), r.out)
    case Pipe(l, r) => TPipe(TreeOf(s, l), TreeOf(s, r))
    case List(l, r) => TList(TreeOf(s, l), TreeOf(s, r))
    case Back(d) => TBack(TreeOf(s, d))
  }

  /** A word, or one of <, > and >> with its file. */
  datatype Item = Arg(word: string) | From(file: string) | To(file: string) | Append(file: string)

  /** A simple command with its words and redirections in any order, or a parenthesised line. */
  datatype Unit = Simple(items: seq<Item>) | Group(line: Line, items: seq<Item>)

  datatype Pipes = One(u: Unit) | Bar(u: Unit, rest: Pipes)

  /** Pipelines, each with the number of & after it. */
  datatype Line = Last(p: Pipes, amps: nat) | Then(p: Pipes, amps: nat, rest: Line)

  predicate IsWord(w: string) {
    w != "" && forall k :: 0 <= k < |w| ==> Word(w[k])
  }

  predicate ItemOk(x: Item) {
    if x.Arg? then IsWord(x.word) else IsWord(x.file)
  }

  function Words(items: seq<Item>): nat {
    if items == [] then 0 else Words(items[1..]) + if items[0].Arg? then 1 else 0
  }

  predicate ItemsOk(items: seq<Item>) {
    forall k :: 0 <= k < |items| ==> ItemOk(items[k])
  }

  predicate NoArgs(items: seq<Item>) {
    forall k :: 0 <= k < |items| ==> !items[k].Arg?
  }

  predicate UnitOk(u: Unit) {
    match u
    case Simple(items) => ItemsOk(items) && Words(items) < MAXARGS
    case Group(l, items) => LineOk(l) && ItemsOk(items) && NoArgs(items)
  }

  predicate PipesOk(p: Pipes) {
    UnitOk(p.u) && (p.Bar? ==> PipesOk(p.rest))
  }

  /** Words without blanks or symbols, and at most nine to a command. */
  predicate LineOk(l: Line) {
    PipesOk(l.p) && (l.Then? ==> LineOk(l.rest))
  }

  function ItemToks(x: Item): (r: seq<string>)
    ensures r != []
  {
    match x
    case Arg(w) => [w]
    case From(f) => ["<", f]
    case To(f) => [">", f]
    case Append(f) => [">>", f]
  }

  function ItemsToks(items: seq<Item>): seq<string> {
    if items == [] then [] else ItemToks(items[0]) + ItemsToks(items[1..])
  }

  function UnitToks(u: Unit): seq<string> {
    match u
    case Simple(items) => ItemsToks(items)
    case Group(l, items) => ["("] + (LineToks(l) + ([")"] + ItemsToks(items)))
  }

  function PipesToks(p: Pipes): seq<string> {
    match p
    case One(u) => UnitToks(u)
    case Bar(u, rest) => UnitToks(u) + (["|"] + PipesToks(rest))
  }

  function Amps(n: nat): seq<string> {
    if n == 0 then [] else ["&"] + Amps(n - 1)
  }

  function LineToks(l: Line): seq<string> {
    match l
    case Last(p, n) => PipesToks(p) + Amps(n)
    case Then(p, n, rest) => PipesToks(p) + (Amps(n) + ([";"] + LineToks(rest)))
  }

  /** One more word for the command inside the redirections. */
  function Push(t: Tree, w: string): Tree {
    match t
    case TExec(words) => TExec(words + [w])
    case TRedir(u, file, out) => TRedir(Push(u, w), file, out)
    case _ => t
  }

  function Add(t: Tree, x: Item): Tree {
    match x
    case Arg(w) => Push(t, w)
    case From(f) => TRedir(t, f, false)
    case To(f) => TRedir(t, f, true)
    case Append(f) => TRedir(t, f, true)
  }

  /** Words and redirections taken from left to right. */
  function AddAll(t: Tree, items: seq<Item>): Tree
    decreases |items|
  {
    if items == [] then t else AddAll(Add(t, items[0]), items[1..])
  }

  function UnitTree(u: Unit): Tree {
    match u
    case Simple(items) => AddAll(TExec([]), items)
    case Group(l, items) => AddAll(LineTree(l), items)
  }

  /** a | b | c nests to the right. */
  function PipesTree(p: Pipes): Tree {
    match p
    case One(u) => UnitTree(u)
    case Bar(u, rest) => TPipe(UnitTree(u), PipesTree(rest))
  }

  function Backed(t: Tree, n: nat): Tree
    decreases n
  {
    if n == 0 then t else Backed(TBack(t), n - 1)
  }

  /** & and ; bind weaker than |. */
  function LineTree(l: Line): Tree {
    match l
    case Last(p, n) => Backed(PipesTree(p), n)
    case Then(p, n, rest) => TList(Backed(PipesTree(p), n), LineTree(rest))
  }

  predicate Blank(g: string) {
    forall k :: 0 <= k < |g| ==> White(g[k])
  }

  predicate IsToken(t: string) {
    IsWord(t) || t == ">>" || (|t| == 1 && Symbol(t[0]))
  }

  /** Two tokens that would be read as one. */
  predicate Sticky(a: string, b: string) {
    a != "" && b != "" && ((Word(a[|a| - 1]) && Word(b[0])) || (a == ">" && b[0] == '>'))
  }

  /** Blanks around the tokens: any, and at least one between two that would be read as one. */
  predicate Gaps(toks: seq<string>, gaps: seq<string>) {
    && |gaps| == |toks| + 1 && (forall k :: 0 <= k < |gaps| ==> Blank(gaps[k]))
    && forall k :: 0 < k < |toks| && Sticky(toks[k - 1], toks[k]) ==> gaps[k] != ""
  }

  function Render(toks: seq<string>, gaps: seq<string>): string
    requires |gaps| == |toks| + 1
  {
    if toks == [] then gaps[0] else gaps[0] + (toks[0] + Render(toks[1..], gaps[1..]))
  }

  /** s is the line l written with some blanks. */
  ghost predicate Spells(s: string, l: Line, gaps: seq<string>) {
    LineOk(l) && Gaps(LineToks(l), gaps) && s == Render(LineToks(l), gaps)
  }

  /** The tokens from i on. */
  function Lex(s: string, i: nat): seq<string>
    requires i <= |s|
    decreases |s| - i
  {
    var t := Gettoken(s, i);
    if t.q == |s| then [] else [s[t.q..t.eq]] + Lex(s, t.next)
  }

  function Kind(t: string): char
    requires t != ""
  {
    if IsWord(t) then 'a' else if t == ">>" then '+' else t[0]
  }

  lemma SkipSkip(s: string, i: nat)
    requires i <= |s|
    ensures Skip(s, Skip(s, i)) == Skip(s, i)
    ensures Gettoken(s, Skip(s, i)) == Gettoken(s, i) && Lex(s, Skip(s, i)) == Lex(s, i)
  {}

  /** gettoken and peek by the tokens. */
  lemma Head(s: string, i: nat)
    requires i <= |s|
    ensures var t := Gettoken(s, i); var ts := Lex(s, i);
            && (ts == [] <==> t.kind == '\0') && (ts == [] ==> t.next == |s|)
            && (ts != [] ==> ts[0] != "" && t.kind == Kind(ts[0]) && ts[0] == Text(s, Span(t.q, t.eq)) && ts[1..] == Lex(s, t.next) && IsToken(ts[0]))
  {
    hide Skip, Lex, WordEnd, White;
    var t := Gettoken(s, i);
    LexIs(s, i);
    if t.q < |s| {
      var w := s[t.q..t.eq];
      if t.kind == 'a' {
        assert forall k :: 0 <= k < |w| ==> w[k] == s[t.q + k];
        assert IsWord(w);
      } else {
        assert !Word(w[0]);
      }
    }
  }

  lemma LexIs(s: string, i: nat)
    requires i <= |s|
    ensures var t := Gettoken(s, i); Lex(s, i) == if t.q == |s| then [] else [s[t.q..t.eq]] + Lex(s, t.next)
  {}

  lemma Peeks(s: string, i: nat, toks: string)
    requires i <= |s|
    ensures Peek(s, i, toks) <==> Lex(s, i) != [] && Lex(s, i)[0] != "" && Lex(s, i)[0][0] in toks
  {
    hide Skip, WordEnd, White, Lex;
    LexIs(s, i);
  }

  lemma SkipAll(s: string, i: nat, q: nat)
    requires i <= q <= |s| && (forall k :: i <= k < q ==> White(s[k])) && (q < |s| ==> !White(s[q]))
    ensures Skip(s, i) == q
  {}

  lemma Parts(s: string, i: nat, g: string, w: string, rest: string)
    requires i <= |s| && s[i..] == g + (w + rest)
    ensures var q := i + |g|; var e := q + |w|; e <= |s| && s[i..q] == g && s[q..e] == w && s[e..] == rest
  {
    var r := s[i..];
    var q, e := i + |g|, i + |g| + |w|;
    assert r[|g|..] == w + rest;
    assert s[i..q] == r[..|g|];
    assert s[q..e] == r[|g|..][..|w|];
    assert s[e..] == r[|g|..][|w|..];
  }

  /** One token behind blanks. */
  lemma TokenRead(s: string, i: nat, q: nat, w: string)
    requires i <= q && q + |w| <= |s| && Blank(s[i..q]) && s[q..q + |w|] == w && IsToken(w)
    requires var e := q + |w|; e < |s| ==> !Sticky(w, [s[e]])
    ensures Gettoken(s, i) == Token(Kind(w), q, q + |w|, Skip(s, q + |w|))
  {
    hide Gettoken, Skip, Sticky, Kind;
    forall k | i <= k < q ensures White(s[k]) { assert s[i..q][k - i] == s[k]; }
    assert s[q..q + |w|][0] == s[q];
    SkipAll(s, i, q);
    SkipSkip(s, i);
    TokenHere(s, q, w);
  }

  lemma TokenHere(s: string, q: nat, w: string)
    requires q + |w| <= |s| && s[q..q + |w|] == w && IsToken(w)
    requires var e := q + |w|; e < |s| ==> !Sticky(w, [s[e]])
    ensures Gettoken(s, q) == Token(Kind(w), q, q + |w|, Skip(s, q + |w|))
  {
    hide Skip, WordEnd;
    forall k | q <= k < q + |w| ensures s[k] == w[k - q] { assert s[q..q + |w|][k - q] == s[k]; }
    SkipAll(s, q, q);
    if IsWord(w) { WordEndIs(s, q, q + |w|); }
  }

  lemma WordEndIs(s: string, q: nat, e: nat)
    requires q <= e <= |s| && (forall k :: q <= k < e ==> Word(s[k])) && (e < |s| ==> !Word(s[e]))
    ensures WordEnd(s, q) == e
  {}

  /** What follows a token is not read as part of it. */
  lemma Unstuck(s: string, e: nat, w: string, toks: seq<string>, gaps: seq<string>)
    requires e < |s| && Gaps(toks, gaps) && s[e..] == Render(toks, gaps) && IsToken(w)
    requires toks != [] ==> IsToken(toks[0]) && (Sticky(w, toks[0]) ==> gaps[0] != "")
    ensures !Sticky(w, [s[e]])
  {
    assert s[e..][0] == s[e];
    assert Blank(gaps[0]);
    if gaps[0] != "" {
      assert s[e] == gaps[0][0];
    } else if toks != [] {
      assert s[e] == toks[0][0];
    }
  }

  /** A text is read as the tokens it was written with. */
  lemma {:induction false} Lexed(s: string, i: nat, toks: seq<string>, gaps: seq<string>)
    requires i <= |s| && Gaps(toks, gaps) && (forall k :: 0 <= k < |toks| ==> IsToken(toks[k])) && s[i..] == Render(toks, gaps)
    ensures Lex(s, i) == toks
    decreases |toks|
  {
    hide Lex, Gettoken, IsToken, Sticky, Kind, Blank;
    if toks == [] {
      LexIs(s, i);
      BlankEnd(s, i);
    } else {
      hide Render;
      GapsTail(toks, gaps);
      FirstLexed(s, i, toks, gaps);
      Lexed(s, i + |gaps[0]| + |toks[0]|, toks[1..], gaps[1..]);
    }
  }

  lemma FirstLexed(s: string, i: nat, toks: seq<string>, gaps: seq<string>)
    requires i <= |s| && toks != [] && Gaps(toks, gaps) && IsToken(toks[0]) && (|toks| > 1 ==> IsToken(toks[1])) && s[i..] == Render(toks, gaps)
    ensures var e := i + |gaps[0]| + |toks[0]|; e <= |s| && s[e..] == Render(toks[1..], gaps[1..]) && Lex(s, i) == [toks[0]] + Lex(s, e)
  {
    var w, ts, gs := toks[0], toks[1..], gaps[1..];
    var rest := Render(ts, gs);
    assert s[i..] == gaps[0] + (w + rest);
    hide *;
    var q, e := i + |gaps[0]|, i + |gaps[0]| + |w|;
    Parts(s, i, gaps[0], w, rest);
    GapsTail(toks, gaps);
    assert |toks| > 1 ==> ts[0] == toks[1];
    if e < |s| { Unstuck(s, e, w, ts, gs); }
    FirstBlank(toks, gaps);
    TokenRead(s, i, q, w);
    TokenSome(w);
    SkipSkip(s, e);
    LexIs(s, i);
  }

  lemma FirstBlank(toks: seq<string>, gaps: seq<string>)
    requires Gaps(toks, gaps)
    ensures |gaps| == |toks| + 1 && Blank(gaps[0])
  {}

  lemma TokenSome(w: string)
    requires IsToken(w)
    ensures w != ""
  {}

  lemma BlankEnd(s: string, i: nat)
    requires i <= |s| && Blank(s[i..])
    ensures Gettoken(s, i).q == |s|
  {
    forall k | i <= k < |s| ensures White(s[k]) { assert s[i..][k - i] == s[k]; }
    SkipAll(s, i, |s|);
  }

  lemma GapsTail(toks: seq<string>, gaps: seq<string>)
    requires toks != [] && Gaps(toks, gaps)
    ensures Gaps(toks[1..], gaps[1..])
    ensures |toks| > 1 && Sticky(toks[0], toks[1]) ==> gaps[1] != ""
  {
    var ts, gs := toks[1..], gaps[1..];
    forall k | 0 < k < |ts| && Sticky(ts[k - 1], ts[k]) ensures gs[k] != "" {
      var j := k + 1;
      assert Sticky(toks[j - 1], toks[j]);
    }
  }

  lemma FirstGap(s: string, i: nat)
    requires i <= |s|
    ensures var t := Gettoken(s, i); Blank(s[i..t.q]) && (t.q < |s| ==> t.next == Skip(s, t.eq))
  {}

  /** A token ends where the next character would not belong to it. */
  lemma NotStuck(s: string, i: nat, ts: seq<string>, gs: seq<string>)
    requires i <= |s| && Gettoken(s, i).q < |s| && Gaps(ts, gs) && s[Gettoken(s, i).eq..] == Render(ts, gs) && (ts != [] ==> IsToken(ts[0]))
    ensures var t := Gettoken(s, i); ts != [] && Sticky(s[t.q..t.eq], ts[0]) ==> gs[0] != ""
  {
    hide Skip, IsToken;
    var t := Gettoken(s, i);
    if ts != [] && gs[0] == "" && ts[0] != "" {
      assert s[t.eq..][0] == ts[0][0];
      assert s[t.eq] == ts[0][0];
    }
  }

  lemma GapsMore(w: string, ts: seq<string>, g: string, gs: seq<string>)
    requires Blank(g) && Gaps(ts, gs) && (ts != [] && Sticky(w, ts[0]) ==> gs[0] != "")
    ensures Gaps([w] + ts, [g] + gs)
  {
    var toks, gaps := [w] + ts, [g] + gs;
    forall k | 0 < k < |toks| && Sticky(toks[k - 1], toks[k]) ensures gaps[k] != "" {
      var j := k - 1;
      assert gaps[k] == gs[j] && toks[k] == ts[j];
      if j > 0 { assert Sticky(ts[j - 1], ts[j]); }
    }
  }

  /** Every text is its tokens with blanks. */
  lemma {:induction false} Written(s: string, i: nat) returns (gaps: seq<string>)
    requires i <= |s|
    ensures Gaps(Lex(s, i), gaps) && s[i..] == Render(Lex(s, i), gaps) && forall k :: 0 <= k < |Lex(s, i)| ==> IsToken(Lex(s, i)[k])
    decreases |s| - i
  {
    hide Lex, Gettoken, IsToken, Sticky, Kind;
    LexIs(s, i);
    var t := Gettoken(s, i);
    var g := s[i..t.q];
    FirstGap(s, i);
    if t.q == |s| {
      gaps := [g];
    } else {
      var w := s[t.q..t.eq];
      var ts := Lex(s, t.eq);
      var gs := Written(s, t.eq);
      Head(s, i);
      SkipSkip(s, t.eq);
      gaps := [g] + gs;
      assert gaps[1..] == gs;
      assert s[i..] == g + (w + s[t.eq..]);
      NotStuck(s, i, ts, gs);
      GapsMore(w, ts, g, gs);
    }
  }
}
