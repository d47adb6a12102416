/** What sh.c's parser returns: every token is a whole word, and a line is parsed exactly when the
    grammar has it, to the command it stands for. */
module ShProofs {
  import opened ShGrammar
  import opened ShSyntax

  /** All tokens are words of the text, and no command has too many arguments. */
  ghost predicate Good(s: string, c: Cmd) {
    match c
    case Exec(argv) => |argv| < MAXARGS && forall k :: 0 <= k < |argv| ==> Lexeme(s, argv[k])
    case Redir(d, r) => Good(s, d) && Lexeme(s, r.file)
    case Pipe(l, r) => Good(s, l) && Good(s, r)
    case List(l, r) => Good(s, l) && Good(s, r)
    case Back(d) => Good(s, d)
  }

  lemma {:induction false} RedirsGood(s: string, i: nat)
    requires i <= |s|
    ensures var r := Redirs(s, i); r.Found? ==> forall k :: 0 <= k < |r.rs| ==> Lexeme(s, r.rs[k].file)
    decreases |s| - i
  {
    hide Lexeme, Gettoken, Peek, Skip;
    if Peek(s, i, "<>") {
      var f := Gettoken(s, Gettoken(s, i).next);
      if f.kind == 'a' { RedirsGood(s, f.next); }
    }
  }

  lemma {:induction false} WrapGood(s: string, c: Cmd, rs: seq<Redirect>)
    requires Good(s, c) && forall k :: 0 <= k < |rs| ==> Lexeme(s, rs[k].file)
    ensures Good(s, Wrap(c, rs))
    decreases |rs|
  {
    if rs != [] { WrapGood(s, Redir(c, rs[0]), rs[1..]); }
  }

  lemma {:induction false} ArgsGood(s: string, i: nat, argv: seq<Span>, rs: seq<Redirect>)
    requires i <= |s| && |argv| < MAXARGS && (forall k :: 0 <= k < |argv| ==> Lexeme(s, argv[k])) && forall k :: 0 <= k < |rs| ==> Lexeme(s, rs[k].file)
    ensures var r := Args(s, i, argv, rs); r.Ok? ==> Good(s, r.cmd)
    decreases |s| - i
  {
    hide Lexeme, Gettoken, Peek, Skip;
    WrapGood(s, Exec(argv), rs);
    var t := Gettoken(s, i);
    if !Peek(s, i, "|)&;") && t.kind == 'a' && |argv| + 1 < MAXARGS {
      RedirsGood(s, t.next);
      match Redirs(s, t.next)
      case NoFile =>
      case Found(rs', j) => ArgsGood(s, j, argv + [Span(t.q, t.eq)], rs + rs');
    }
  }

  lemma {:induction false} ExecGood(s: string, i: nat)
    requires i <= |s|
    ensures var r := Parseexec(s, i); r.Ok? ==> Good(s, r.cmd)
    decreases |s| - i, 1
  {
    if Peek(s, i, "(") {
      BlockGood(s, Skip(s, i));
    } else {
      RedirsGood(s, i);
      match Redirs(s, i)
      case NoFile =>
      case Found(rs, j) => ArgsGood(s, j, [], rs);
    }
  }

  lemma {:induction false} BlockGood(s: string, i: nat)
    requires i <= |s|
    ensures var r := Parseblock(s, i); r.Ok? ==> Good(s, r.cmd)
    decreases |s| - i, 0
  {
    if Peek(s, i, "(") {
      var n := Gettoken(s, i).next;
      LineGood(s, n);
      match Parseline(s, n)
      case Panic =>
      case Ok(c, j) =>
        var m := Gettoken(s, j).next;
        RedirsGood(s, m);
        match Redirs(s, m)
        case NoFile =>
        case Found(rs, k) => WrapGood(s, c, rs);
    }
  }

  lemma {:induction false} PipeGood(s: string, i: nat)
    requires i <= |s|
    ensures var r := Parsepipe(s, i); r.Ok? ==> Good(s, r.cmd)
    decreases |s| - i, 2
  {
    ExecGood(s, i);
    match Parseexec(s, i)
    case Panic =>
    case Ok(c, j) => if Peek(s, j, "|") { PipeGood(s, Gettoken(s, j).next); }
  }

  lemma {:induction false} BacksGood(s: string, i: nat, c: Cmd)
    requires i <= |s| && Good(s, c)
    ensures Good(s, Backs(s, i, c).0)
    decreases |s| - i
  {
    if Peek(s, i, "&") { BacksGood(s, Gettoken(s, i).next, Back(c)); }
  }

  lemma {:induction false} LineGood(s: string, i: nat)
    requires i <= |s|
    ensures var r := Parseline(s, i); r.Ok? ==> Good(s, r.cmd)
    decreases |s| - i, 3
  {
    PipeGood(s, i);
    match Parsepipe(s, i)
    case Panic =>
    case Ok(c, j) =>
      BacksGood(s, j, c);
      var k := Backs(s, j, c).1;
      if Peek(s, k, ";") { LineGood(s, Gettoken(s, k).next); }
  }

  lemma ItemsSplit(xs: seq<Item>, ys: seq<Item>, t: Tree)
    ensures ItemsToks(xs + ys) == ItemsToks(xs) + ItemsToks(ys) && Words(xs + ys) == Words(xs) + Words(ys)
    ensures AddAll(t, xs + ys) == AddAll(AddAll(t, xs), ys)
    decreases |xs|
  {
    if xs == [] {
      assert xs + ys == ys;
    } else {
      assert (xs + ys)[1..] == xs[1..] + ys;
      ItemsSplit(xs[1..], ys, Add(t, xs[0]));
    }
  }

  /** The redirections before the first word. */
  function Lead(items: seq<Item>): (n: nat)
    ensures n <= |items| && NoArgs(items[..n]) && (n < |items| ==> items[n].Arg?)
  {
    if items == [] || items[0].Arg? then 0 else
      var n := Lead(items[1..]);
      assert items[..n + 1] == [items[0]] + items[1..][..n];
      n + 1
  }

  lemma NoWords(items: seq<Item>)
    requires NoArgs(items)
    ensures Words(items) == 0
  {}

  /** The next token is not in the set. */
  predicate Off(rest: seq<string>, toks: string) {
    rest == [] || (rest[0] != "" && rest[0][0] !in toks)
  }

  /** A simple command stops here. */
  predicate Stops(rest: seq<string>) {
    rest == [] || rest[0] in ["|", ")", "&", ";"]
  }

  /** Redirections are taken in order, the first one innermost. */
  lemma {:induction false} RedirsParsed(s: string, i: nat, items: seq<Item>, rest: seq<string>, c: Cmd)
    requires i <= |s| && ItemsOk(items) && NoArgs(items) && Lex(s, i) == ItemsToks(items) + rest && Off(rest, "<>")
    ensures var r := Redirs(s, i); r.Found? && Lex(s, r.i) == rest && TreeOf(s, Wrap(c, r.rs)) == AddAll(TreeOf(s, c), items)
    decreases |items|
  {
    hide Lex, Gettoken, Peek, IsWord;
    Peeks(s, i, "<>");
    Head(s, i);
    if items == [] {
      SkipSkip(s, i);
    } else {
      var x, more := items[0], items[1..];
      var t := Gettoken(s, i);
      var f := Gettoken(s, t.next);
      Assoc(ItemToks(x), ItemsToks(more), rest);
      Head(s, t.next);
      var ts := ItemsToks(more) + rest;
      assert Lex(s, i)[1..] == [x.file] + ts;
      assert Lex(s, t.next)[1..] == ts;
      var r := Redirect(Span(f.q, f.eq), t.kind != '<');
      ArrowKinds();
      RedirsParsed(s, f.next, more, rest, Redir(c, r));
      assert Redirs(s, i).rs == [r] + Redirs(s, f.next).rs;
      assert Redirs(s, i).rs[1..] == Redirs(s, f.next).rs;
    }
  }

  lemma ArrowKinds()
    ensures Kind("<") == '<' && Kind(">") == '>' && Kind(">>") == '+'
  {
    assert !Word("<"[0]) && !Word(">"[0]) && !Word(">>"[0]);
  }

  lemma Assoc(a: seq<string>, b: seq<string>, c: seq<string>)
    ensures a + b + c == a + (b + c)
  {}

  lemma {:induction false} WrapMore(c: Cmd, rs: seq<Redirect>, more: seq<Redirect>)
    ensures Wrap(c, rs + more) == Wrap(Wrap(c, rs), more)
    decreases |rs|
  {
    if rs == [] {
      assert rs + more == more;
    } else {
      assert (rs + more)[1..] == rs[1..] + more;
      WrapMore(Redir(c, rs[0]), rs[1..], more);
    }
  }

  /** A word goes to the command inside the redirections. */
  lemma {:induction false} WrapPush(s: string, argv: seq<Span>, w: Span, rs: seq<Redirect>)
    ensures TreeOf(s, Wrap(Exec(argv + [w]), rs)) == Push(TreeOf(s, Wrap(Exec(argv), rs)), Text(s, w))
    decreases |rs|
  {
    var n := |rs|;
    if n > 0 {
      var a, r := rs[..n - 1], rs[n - 1];
      assert rs == a + [r];
      assert [r][1..] == [];
      WrapMore(Exec(argv + [w]), a, [r]);
      WrapMore(Exec(argv), a, [r]);
      WrapPush(s, argv, w, a);
    }
  }

  /** Words and redirections of a simple command, in any order. */
  lemma {:induction false} ArgsParsed(s: string, i: nat, items: seq<Item>, rest: seq<string>, argv: seq<Span>, rs: seq<Redirect>)
    requires i <= |s| && ItemsOk(items) && Lex(s, i) == ItemsToks(items) + rest && Stops(rest)
    requires |argv| + Words(items) < MAXARGS && (items != [] ==> items[0].Arg?)
    ensures var r := Args(s, i, argv, rs);
            r.Ok? && Lex(s, r.i) == rest && TreeOf(s, r.cmd) == AddAll(TreeOf(s, Wrap(Exec(argv), rs)), items)
    decreases |items|
  {
    hide Lex, Gettoken, IsWord, Redirs, Wrap, TreeOf, Args;
    if items == [] {
      ArgsStop(s, i, argv, rs);
    } else {
      var w, more := items[0].word, items[1..];
      var n := Lead(more);
      var tos, items' := more[..n], more[n..];
      assert more == tos + items';
      NoWords(tos);
      Assoc([w], ItemsToks(more), rest);
      ArgsWord(s, i, argv, rs, w);
      var t := Gettoken(s, i);
      var sp := Span(t.q, t.eq);
      var c := Wrap(Exec(argv + [sp]), rs);
      ItemsSplit(tos, items', TreeOf(s, c));
      Assoc(ItemsToks(tos), ItemsToks(items'), rest);
      ItemsFirst(items', rest);
      RedirsParsed(s, t.next, tos, ItemsToks(items') + rest, c);
      var r := Redirs(s, t.next);
      WrapMore(Exec(argv + [sp]), rs, r.rs);
      ArgsParsed(s, r.i, items', rest, argv + [sp], rs + r.rs);
    }
  }

  lemma ArgsStop(s: string, i: nat, argv: seq<Span>, rs: seq<Redirect>)
    requires i <= |s| && Stops(Lex(s, i))
    ensures var r := Args(s, i, argv, rs); r.Ok? && r.cmd == Wrap(Exec(argv), rs) && Lex(s, r.i) == Lex(s, i)
  {
    hide Lex, Gettoken, Peek, Redirs, Wrap, Skip;
    Peeks(s, i, "|)&;");
    Head(s, i);
    SkipSkip(s, i);
    LexEnd(s);
  }

  /** One round of parseexec's loop on a word. */
  lemma ArgsWord(s: string, i: nat, argv: seq<Span>, rs: seq<Redirect>, w: string)
    requires i <= |s| && Lex(s, i) != [] && Lex(s, i)[0] == w && IsWord(w) && |argv| + 1 < MAXARGS
    ensures var t := Gettoken(s, i);
            var sp := Span(t.q, t.eq);
            && Lex(s, i)[1..] == Lex(s, t.next)
            && TreeOf(s, Wrap(Exec(argv + [sp]), rs)) == Push(TreeOf(s, Wrap(Exec(argv), rs)), w)
            && var r := Redirs(s, t.next); r.Found? ==> Args(s, i, argv, rs) == Args(s, r.i, argv + [sp], rs + r.rs)
  {
    hide Lex, Gettoken, Peek, IsWord, Redirs, Wrap, TreeOf, Skip, Push;
    Peeks(s, i, "|)&;");
    Head(s, i);
    WordFirst(w);
    var t := Gettoken(s, i);
    WrapPush(s, argv, Span(t.q, t.eq), rs);
  }

  lemma LexEnd(s: string)
    ensures Lex(s, |s|) == []
  {}

  lemma WordFirst(w: string)
    requires IsWord(w)
    ensures w != "" && Word(w[0]) && Kind(w) == 'a'
  {}

  /** A simple command starts with a word or a redirection, never with a parenthesis. */
  lemma ItemsFirst(items: seq<Item>, rest: seq<string>)
    requires ItemsOk(items) && Stops(rest)
    ensures Off(ItemsToks(items) + rest, "(") && (items == [] || items[0].Arg? ==> Off(ItemsToks(items) + rest, "<>"))
  {
    if items != [] {
      if items[0].Arg? { WordFirst(items[0].word); }
      assert (ItemsToks(items) + rest)[0] == ItemToks(items[0])[0];
    } else {
      assert ItemsToks(items) + rest == rest;
    }
  }

  lemma SimpleParsed(s: string, i: nat, items: seq<Item>, rest: seq<string>)
    requires i <= |s| && UnitOk(Simple(items)) && Lex(s, i) == ItemsToks(items) + rest && Stops(rest)
    ensures var r := Parseexec(s, i); r.Ok? && Lex(s, r.i) == rest && TreeOf(s, r.cmd) == AddAll(TExec([]), items)
  {
    hide Lex, Gettoken, Peek, IsWord, Redirs, Wrap, TreeOf, Skip, Args, Parseblock, Symbol, ItemsToks;
    Peeks(s, i, "(");
    var n := Lead(items);
    var tos, items' := items[..n], items[n..];
    assert items == tos + items';
    ItemsSplit(tos, items', TExec([]));
    NoWords(tos);
    ItemsFirst(items, rest);
    ItemsFirst(items', rest);
    Assoc(ItemsToks(tos), ItemsToks(items'), rest);
    RedirsParsed(s, i, tos, ItemsToks(items') + rest, Exec([]));
    var r := Redirs(s, i);
    ArgsParsed(s, r.i, items', rest, [], r.rs);
    NoneTree(s);
  }

  /** A parenthesised line, given how the line is parsed. */
  lemma GroupParsed(s: string, i: nat, inner: seq<string>, items: seq<Item>, rest: seq<string>)
    requires i <= |s| && ItemsOk(items) && NoArgs(items) && Stops(rest)
    requires Lex(s, i) == ["("] + (inner + ([")"] + (ItemsToks(items) + rest)))
    ensures var j := Gettoken(s, i).next;
            && Lex(s, j) == inner + ([")"] + (ItemsToks(items) + rest)) && j > i
            && (Parseline(s, j).Ok? && Lex(s, Parseline(s, j).i) == [")"] + (ItemsToks(items) + rest) ==>
                  var r := Parseexec(s, i); r.Ok? && Lex(s, r.i) == rest && TreeOf(s, r.cmd) == AddAll(TreeOf(s, Parseline(s, j).cmd), items))
  {
    hide Lex, Gettoken, Peek, IsWord, Redirs, Wrap, TreeOf, Skip, Args, Parseline, Symbol, ItemsToks, ItemsOk, NoArgs;
    Peeks(s, i, "(");
    Head(s, i);
    SkipSkip(s, i);
    Peeks(s, Skip(s, i), "(");
    var j := Gettoken(s, i).next;
    var r := Parseline(s, j);
    if r.Ok? && Lex(s, r.i) == [")"] + (ItemsToks(items) + rest) {
      Peeks(s, r.i, ")");
      Head(s, r.i);
      RedirsParsed(s, Gettoken(s, r.i).next, items, rest, r.cmd);
    }
  }

  lemma {:induction false} UnitParsed(s: string, i: nat, u: Unit, rest: seq<string>)
    requires i <= |s| && UnitOk(u) && Lex(s, i) == UnitToks(u) + rest && Stops(rest)
    ensures var r := Parseexec(s, i); r.Ok? && Lex(s, r.i) == rest && TreeOf(s, r.cmd) == UnitTree(u)
    decreases u
  {
    hide Lex, Gettoken, IsWord, TreeOf, Parseline, Parseexec, Stops, ItemsOk, NoArgs, Words;
    match u
    case Simple(items) => SimpleParsed(s, i, items, rest);
    case Group(l, items) =>
      var close := [")"] + (ItemsToks(items) + rest);
      assert UnitToks(u) + rest == ["("] + (LineToks(l) + close);
      GroupParsed(s, i, LineToks(l), items, rest);
      LineParsed(s, Gettoken(s, i).next, l, close);
  }

  lemma NoneTree(s: string)
    ensures Wrap(Exec([]), []) == Exec([]) && TreeOf(s, Exec([])) == TExec([])
  {}

  lemma {:induction false} PipesParsed(s: string, i: nat, p: Pipes, rest: seq<string>)
    requires i <= |s| && PipesOk(p) && Lex(s, i) == PipesToks(p) + rest && Stops(rest) && Off(rest, "|")
    ensures var r := Parsepipe(s, i); r.Ok? && Lex(s, r.i) == rest && TreeOf(s, r.cmd) == PipesTree(p)
    decreases p
  {
    hide Lex, Gettoken, Peek, Skip, Parseexec, UnitToks, UnitOk, UnitTree, Symbol, Kind, IsToken;
    var after := if p.One? then rest else ["|"] + (PipesToks(p.rest) + rest);
    if p.Bar? {
      Assoc(UnitToks(p.u), ["|"] + PipesToks(p.rest), rest);
      Assoc(["|"], PipesToks(p.rest), rest);
    }
    UnitParsed(s, i, p.u, after);
    var j := Parseexec(s, i).i;
    Peeks(s, j, "|");
    Head(s, j);
    SkipSkip(s, j);
    if p.Bar? {
      PipesParsed(s, Gettoken(s, j).next, p.rest, rest);
    }
  }

  lemma {:induction false} BacksParsed(s: string, i: nat, n: nat, rest: seq<string>, c: Cmd)
    requires i <= |s| && Lex(s, i) == Amps(n) + rest && Off(rest, "&")
    ensures var r := Backs(s, i, c); Lex(s, r.1) == rest && TreeOf(s, r.0) == Backed(TreeOf(s, c), n)
    decreases n
  {
    hide Lex, Gettoken, Peek, Skip;
    Peeks(s, i, "&");
    Head(s, i);
    SkipSkip(s, i);
    if n > 0 {
      assert (Amps(n) + rest)[1..] == Amps(n - 1) + rest;
      BacksParsed(s, Gettoken(s, i).next, n - 1, rest, Back(c));
    }
  }

  /** What follows a line's first pipeline. */
  function Tail(l: Line, rest: seq<string>): seq<string> {
    if l.Last? then rest else [";"] + (LineToks(l.rest) + rest)
  }

  lemma AmpsFirst(n: nat, rest: seq<string>)
    ensures n > 0 ==> Amps(n) + rest != [] && (Amps(n) + rest)[0] == "&"
    ensures n == 0 ==> Amps(n) + rest == rest
  {}

  lemma TailIs(l: Line, rest: seq<string>)
    requires rest == [] || rest[0] == ")"
    ensures var after := Amps(l.amps) + Tail(l, rest);
            LineToks(l) + rest == PipesToks(l.p) + after && Stops(after) && Off(after, "|") && Off(Tail(l, rest), "&")
  {
    hide PipesToks, Amps;
    var amps := Amps(l.amps);
    AmpsFirst(l.amps, Tail(l, rest));
    Assoc(PipesToks(l.p), amps, rest);
    if l.Then? {
      var more := [";"] + LineToks(l.rest);
      Assoc(PipesToks(l.p), amps + more, rest);
      Assoc(amps, more, rest);
      Assoc([";"], LineToks(l.rest), rest);
    }
  }

  /** A line of the grammar is parsed to the command it stands for. */
  lemma {:induction false} LineParsed(s: string, i: nat, l: Line, rest: seq<string>)
    requires i <= |s| && LineOk(l) && Lex(s, i) == LineToks(l) + rest && (rest == [] || rest[0] == ")")
    ensures var r := Parseline(s, i); r.Ok? && Lex(s, r.i) == rest && TreeOf(s, r.cmd) == LineTree(l)
    decreases l
  {
    hide Lex, Gettoken, Peek, Skip, Parsepipe, Amps, PipesToks, LineToks, PipesOk, PipesTree, Stops, Symbol, Backs, Backed, Kind;
    var semi := Tail(l, rest);
    TailIs(l, rest);
    PipesParsed(s, i, l.p, Amps(l.amps) + semi);
    var r := Parsepipe(s, i);
    BacksParsed(s, r.i, l.amps, semi, r.cmd);
    var k := Backs(s, r.i, r.cmd).1;
    Peeks(s, k, ";");
    Head(s, k);
    SkipSkip(s, k);
    if l.Then? {
      LineParsed(s, Gettoken(s, k).next, l.rest, rest);
    }
  }

  /** Redirections the parser took are redirections of the grammar. */
  lemma {:induction false} RedirsRead(s: string, i: nat, c: Cmd) returns (items: seq<Item>)
    requires i <= |s| && Redirs(s, i).Found?
    ensures ItemsOk(items) && NoArgs(items) && Lex(s, i) == ItemsToks(items) + Lex(s, Redirs(s, i).i)
    ensures TreeOf(s, Wrap(c, Redirs(s, i).rs)) == AddAll(TreeOf(s, c), items)
    decreases |s| - i
  {
    hide Lex, Gettoken, Peek, IsWord, ItemToks, Kind, IsToken, ItemOk, Symbol, Skip;
    Peeks(s, i, "<>");
    Head(s, i);
    if !Peek(s, i, "<>") {
      SkipSkip(s, i);
      items := [];
    } else {
      var t := Gettoken(s, i);
      var f := Gettoken(s, t.next);
      Head(s, t.next);
      var r := Redirect(Span(f.q, f.eq), t.kind != '<');
      var more := RedirsRead(s, f.next, Redir(c, r));
      var x := ItemOf(Lex(s, i)[0], Lex(s, t.next)[0]);
      items := [x] + more;
      assert items[1..] == more;
      assert Redirs(s, i).rs[1..] == Redirs(s, f.next).rs;
      assert Lex(s, i) == ItemToks(x) + Lex(s, f.next);
      Assoc(ItemToks(x), ItemsToks(more), Lex(s, Redirs(s, i).i));
    }
  }

  lemma ItemOf(op: string, file: string) returns (x: Item)
    requires IsToken(op) && op != "" && op[0] in "<>" && IsToken(file) && Kind(file) == 'a'
    ensures !x.Arg? && ItemOk(x) && ItemToks(x) == [op, file] && x.file == file
    ensures forall t :: Add(t, x) == TRedir(t, file, Kind(op) != '<')
  {
    x := if op == "<" then From(file) else if op == ">" then To(file) else Append(file);
    ArrowKinds();
    assert !Word(op[0]);
    if op != ">>" { assert op == [op[0]]; }
    assert op == "<" || op == ">" || op == ">>";
    assert IsWord(file);
  }

  lemma {:induction false} ArgsRead(s: string, i: nat, argv: seq<Span>, rs: seq<Redirect>) returns (items: seq<Item>)
    requires i <= |s| && |argv| < MAXARGS && Args(s, i, argv, rs).Ok?
    ensures ItemsOk(items) && |argv| + Words(items) < MAXARGS
    ensures var r := Args(s, i, argv, rs);
            Lex(s, i) == ItemsToks(items) + Lex(s, r.i) && TreeOf(s, r.cmd) == AddAll(TreeOf(s, Wrap(Exec(argv), rs)), items)
    decreases |s| - i
  {
    hide Lex, Gettoken, Peek, IsWord, Redirs, Wrap, TreeOf, Skip;
    Head(s, i);
    var t := Gettoken(s, i);
    if Peek(s, i, "|)&;") || t.kind == '\0' {
      SkipSkip(s, i);
      LexEnd(s);
      items := [];
    } else {
      var sp := Span(t.q, t.eq);
      var c := Wrap(Exec(argv + [sp]), rs);
      var r := Redirs(s, t.next);
      var tos := RedirsRead(s, t.next, c);
      var more := ArgsRead(s, r.i, argv + [sp], rs + r.rs);
      WrapMore(Exec(argv + [sp]), rs, r.rs);
      WrapPush(s, argv, sp, rs);
      var w := Lex(s, i)[0];
      WordKind(w);
      items := [Arg(w)] + (tos + more);
      assert items[1..] == tos + more;
      ItemsSplit(tos, more, TreeOf(s, c));
      NoWords(tos);
      Assoc(ItemsToks(tos), ItemsToks(more), Lex(s, Args(s, i, argv, rs).i));
      Assoc([w], ItemsToks(tos + more), Lex(s, Args(s, i, argv, rs).i));
      assert Lex(s, i) == [w] + Lex(s, t.next);
    }
  }

  lemma WordKind(w: string)
    requires IsToken(w) && w != "" && Kind(w) == 'a'
    ensures IsWord(w)
  {}

  lemma SimpleRead(s: string, i: nat) returns (u: Unit)
    requires i <= |s| && !Peek(s, i, "(") && Parseexec(s, i).Ok?
    ensures var r := Parseexec(s, i); UnitOk(u) && Lex(s, i) == UnitToks(u) + Lex(s, r.i) && TreeOf(s, r.cmd) == UnitTree(u)
  {
    hide Lex, Gettoken, Peek, ItemOk, Redirs, Args, Wrap, TreeOf, Parseblock;
    var r := Redirs(s, i);
    var tos := RedirsRead(s, i, Exec([]));
    var items := ArgsRead(s, r.i, [], r.rs);
    NoneTree(s);
    ItemsSplit(tos, items, TExec([]));
    NoWords(tos);
    Assoc(ItemsToks(tos), ItemsToks(items), Lex(s, Parseexec(s, i).i));
    u := Simple(tos + items);
  }

  lemma {:induction false} UnitRead(s: string, i: nat) returns (u: Unit)
    requires i <= |s| && Parseexec(s, i).Ok?
    ensures var r := Parseexec(s, i); UnitOk(u) && Lex(s, i) == UnitToks(u) + Lex(s, r.i) && TreeOf(s, r.cmd) == UnitTree(u)
    decreases |s| - i, 0
  {
    if !Peek(s, i, "(") {
      u := SimpleRead(s, i);
    } else {
      BlockRead(s, i);
      var l := LineRead(s, Gettoken(s, i).next);
      u := GroupRead(s, i, l);
    }
  }

  /** What parseblock reads, given what it reads inside. */
  lemma BlockRead(s: string, i: nat)
    requires i <= |s| && Peek(s, i, "(") && Parseexec(s, i).Ok?
    ensures var n := Gettoken(s, i).next; n > i && Lex(s, i) == ["("] + Lex(s, n) && Parseline(s, n).Ok?
    ensures var r := Parseline(s, Gettoken(s, i).next);
            var m := Gettoken(s, r.i).next;
            && Lex(s, r.i) == [")"] + Lex(s, m) && Redirs(s, m).Found?
            && Parseexec(s, i) == Ok(Wrap(r.cmd, Redirs(s, m).rs), Redirs(s, m).i)
  {
    hide Lex, Gettoken, Peek, Redirs, Wrap, Parseline, Skip, IsToken, Kind;
    Peeks(s, i, "(");
    SkipSkip(s, i);
    Peeks(s, Skip(s, i), "(");
    SymbolHead(s, i);
    var r := Parseline(s, Gettoken(s, i).next);
    if r.Ok? {
      Peeks(s, r.i, ")");
      if Peek(s, r.i, ")") { SymbolHead(s, r.i); }
    }
  }

  /** A symbol other than > is a token by itself. */
  lemma SymbolHead(s: string, i: nat)
    requires i <= |s| && Lex(s, i) != [] && Lex(s, i)[0] != "" && Lex(s, i)[0][0] in "|&;()"
    ensures var n := Gettoken(s, i).next; n > i && Lex(s, i) == [[Lex(s, i)[0][0]]] + Lex(s, n)
  {
    hide Lex, Gettoken;
    Head(s, i);
    var t := Lex(s, i)[0];
    assert t == [t[0]];
  }

  lemma GroupRead(s: string, i: nat, l: Line) returns (u: Unit)
    requires i <= |s| && Peek(s, i, "(") && Parseexec(s, i).Ok? && LineOk(l) && Parseline(s, Gettoken(s, i).next).Ok?
    requires var n := Gettoken(s, i).next; var r := Parseline(s, n); Lex(s, n) == LineToks(l) + Lex(s, r.i) && TreeOf(s, r.cmd) == LineTree(l)
    ensures var r := Parseexec(s, i); UnitOk(u) && Lex(s, i) == UnitToks(u) + Lex(s, r.i) && TreeOf(s, r.cmd) == UnitTree(u)
  {
    hide Lex, Gettoken, Peek, Redirs, Wrap, Parseline, Parseexec, TreeOf, LineTree, LineOk, LineToks, ItemsToks, AddAll;
    BlockRead(s, i);
    var n := Gettoken(s, i).next;
    var r := Parseline(s, n);
    var m := Gettoken(s, r.i).next;
    var items := RedirsRead(s, m, r.cmd);
    u := Group(l, items);
    var rest := Lex(s, Redirs(s, m).i);
    Assoc([")"], ItemsToks(items), rest);
    Assoc(LineToks(l), [")"] + ItemsToks(items), rest);
    Assoc(["("], LineToks(l) + ([")"] + ItemsToks(items)), rest);
  }

  lemma {:induction false} PipesRead(s: string, i: nat) returns (p: Pipes)
    requires i <= |s| && Parsepipe(s, i).Ok?
    ensures var r := Parsepipe(s, i); PipesOk(p) && Lex(s, i) == PipesToks(p) + Lex(s, r.i) && TreeOf(s, r.cmd) == PipesTree(p)
    decreases |s| - i, 1
  {
    hide Lex, Gettoken, Peek, Skip, Parseexec, UnitOk, UnitToks, UnitTree;
    var u := UnitRead(s, i);
    var j := Parseexec(s, i).i;
    SkipSkip(s, j);
    p := One(u);
    if Peek(s, j, "|") {
      Peeks(s, j, "|");
      SymbolHead(s, j);
      var n := Gettoken(s, j).next;
      var rest := PipesRead(s, n);
      p := Bar(u, rest);
      Assoc(["|"], PipesToks(rest), Lex(s, Parsepipe(s, i).i));
      Assoc(UnitToks(u), ["|"] + PipesToks(rest), Lex(s, Parsepipe(s, i).i));
    }
  }

  lemma {:induction false} BacksRead(s: string, i: nat, c: Cmd) returns (n: nat)
    requires i <= |s|
    ensures var r := Backs(s, i, c); Lex(s, i) == Amps(n) + Lex(s, r.1) && TreeOf(s, r.0) == Backed(TreeOf(s, c), n)
    decreases |s| - i
  {
    hide Lex, Gettoken, Peek, Skip;
    SkipSkip(s, i);
    n := 0;
    if Peek(s, i, "&") {
      Peeks(s, i, "&");
      SymbolHead(s, i);
      var m := BacksRead(s, Gettoken(s, i).next, Back(c));
      n := m + 1;
      Assoc(["&"], Amps(m), Lex(s, Backs(s, i, c).1));
    }
  }

  /** A line the parser takes is a line of the grammar. */
  lemma {:induction false} LineRead(s: string, i: nat) returns (l: Line)
    requires i <= |s| && Parseline(s, i).Ok?
    ensures var r := Parseline(s, i); LineOk(l) && Lex(s, i) == LineToks(l) + Lex(s, r.i) && TreeOf(s, r.cmd) == LineTree(l)
    decreases |s| - i, 2
  {
    hide Lex, Gettoken, Peek, Skip, Parsepipe, PipesOk, PipesToks, PipesTree, Amps, Backs, Backed;
    var p := PipesRead(s, i);
    var r := Parsepipe(s, i);
    var n := BacksRead(s, r.i, r.cmd);
    var k := Backs(s, r.i, r.cmd).1;
    SkipSkip(s, k);
    l := Last(p, n);
    var rest := Lex(s, Parseline(s, i).i);
    Assoc(PipesToks(p), Amps(n), rest);
    if Peek(s, k, ";") {
      Peeks(s, k, ";");
      SymbolHead(s, k);
      var more := LineRead(s, Gettoken(s, k).next);
      l := Then(p, n, more);
      Assoc([";"], LineToks(more), rest);
      Assoc(Amps(n), [";"] + LineToks(more), rest);
      Assoc(PipesToks(p), Amps(n) + ([";"] + LineToks(more)), rest);
    }
  }

  lemma ItemsTokens(items: seq<Item>)
    requires ItemsOk(items)
    ensures forall k :: 0 <= k < |ItemsToks(items)| ==> IsToken(ItemsToks(items)[k])
  {
    if items != [] { ItemsTokens(items[1..]); }
  }

  lemma {:induction false} UnitTokens(u: Unit)
    requires UnitOk(u)
    ensures forall k :: 0 <= k < |UnitToks(u)| ==> IsToken(UnitToks(u)[k])
  {
    hide IsToken;
    SymbolTokens();
    ItemsTokens(u.items);
    if u.Group? { LineTokens(u.line); }
  }

  lemma SymbolTokens()
    ensures IsToken("(") && IsToken(")") && IsToken("|") && IsToken("&") && IsToken(";")
  {}

  lemma {:induction false} PipesTokens(p: Pipes)
    requires PipesOk(p)
    ensures forall k :: 0 <= k < |PipesToks(p)| ==> IsToken(PipesToks(p)[k])
  {
    hide IsToken, UnitToks, UnitOk;
    SymbolTokens();
    UnitTokens(p.u);
    if p.Bar? { PipesTokens(p.rest); }
  }

  lemma AmpsTokens(n: nat)
    ensures forall k :: 0 <= k < |Amps(n)| ==> IsToken(Amps(n)[k])
  {
    hide IsToken;
    SymbolTokens();
    if n > 0 { AmpsTokens(n - 1); }
  }

  lemma {:induction false} LineTokens(l: Line)
    requires LineOk(l)
    ensures forall k :: 0 <= k < |LineToks(l)| ==> IsToken(LineToks(l)[k])
  {
    hide IsToken, PipesToks, PipesOk, Amps;
    SymbolTokens();
    PipesTokens(l.p);
    AmpsTokens(l.amps);
    if l.Then? { LineTokens(l.rest); }
  }

  /** parsecmd returns the command a line stands for, whatever its blanks. */
  lemma Parses(s: string, l: Line, gaps: seq<string>)
    requires Spells(s, l, gaps)
    ensures var r := Parsecmd(s); r.Ok? && TreeOf(s, r.cmd) == LineTree(l)
  {
    hide Parseline, Lex, LineToks, LineOk, LineTree, TreeOf, Render, Gaps;
    LineTokens(l);
    assert s[0..] == s;
    Lexed(s, 0, LineToks(l), gaps);
    var none: seq<string> := [];
    assert LineToks(l) + none == LineToks(l);
    LineParsed(s, 0, l, none);
    LexNone(s, Parseline(s, 0).i);
  }

  lemma LexNone(s: string, i: nat)
    requires i <= |s|
    ensures Lex(s, i) == [] <==> Skip(s, i) == |s|
  {}

  /** parsecmd takes exactly the lines of the grammar; on every other line it panics. */
  lemma ParsesIff(s: string)
    ensures Parsecmd(s).Ok? <==> exists l, gaps :: Spells(s, l, gaps)
    ensures forall l, gaps :: Spells(s, l, gaps) ==> TreeOf(s, Parsecmd(s).cmd) == LineTree(l)
  {
    hide Parsecmd, Spells;
    forall l, gaps | Spells(s, l, gaps) ensures Parsecmd(s).Ok? && TreeOf(s, Parsecmd(s).cmd) == LineTree(l) { Parses(s, l, gaps); }
    if Parsecmd(s).Ok? {
      var l, gaps := Grammatical(s);
      assert Spells(s, l, gaps);
    }
  }

  lemma Grammatical(s: string) returns (l: Line, gaps: seq<string>)
    requires Parsecmd(s).Ok?
    ensures Spells(s, l, gaps)
  {
    hide Parseline, Lex, LineToks, LineOk, LineTree, TreeOf, Render, Gaps, Skip;
    l := LineRead(s, 0);
    LexNone(s, Parseline(s, 0).i);
    assert LineToks(l) + [] == LineToks(l);
    gaps := Written(s, 0);
    assert s[0..] == s;
  }

  /** The commands there are: words without blanks or symbols, at most nine to a command. */
  predicate Printable(t: Tree) {
    match t
    case TExec(words) => |words| < MAXARGS && forall k :: 0 <= k < |words| ==> IsWord(words[k])
    case TRedir(u, file, out) => Printable(u) && IsWord(file)
    case TPipe(l, r) => Printable(l) && Printable(r)
    case TList(l, r) => Printable(l) && Printable(r)
    case TBack(u) => Printable(u)
  }

  function WithItem(u: Unit, x: Item): Unit {
    match u
    case Simple(items) => Simple(items + [x])
    case Group(l, items) => Group(l, items + [x])
  }

  /** A command with parentheses only where the grammar needs them. */
  function UnitOf(t: Tree): Unit
    decreases t, 0
  {
    match t
    case TExec(words) => Simple(seq(|words|, k requires 0 <= k < |words| => Arg(words[k])))
    case TRedir(u, file, out) => WithItem(UnitOf(u), if out then To(file) else From(file))
    case TPipe(l, r) => Group(Last(Bar(UnitOf(l), PipesOf(r)), 0), [])
    case TList(l, r) => Group(Then(BackOf(l).0, BackOf(l).1, LineOf(r)), [])
    case TBack(u) => Group(Last(BackOf(u).0, BackOf(u).1 + 1), [])
  }

  function PipesOf(t: Tree): Pipes
    decreases t, 1
  {
    if t.TPipe? then Bar(UnitOf(t.l), PipesOf(t.r)) else One(UnitOf(t))
  }

  function BackOf(t: Tree): (Pipes, nat)
    decreases t, 2
  {
    if t.TBack? then (BackOf(t.t).0, BackOf(t.t).1 + 1) else (PipesOf(t), 0)
  }

  function LineOf(t: Tree): Line
    decreases t, 3
  {
    if t.TList? then Then(BackOf(t.l).0, BackOf(t.l).1, LineOf(t.r)) else Last(BackOf(t).0, BackOf(t).1)
  }

  lemma {:induction false} ExecOf(words: seq<string>, done: seq<string>)
    requires forall k :: 0 <= k < |words| ==> IsWord(words[k])
    ensures var items := seq(|words|, k requires 0 <= k < |words| => Arg(words[k]));
            ItemsOk(items) && Words(items) == |words| && AddAll(TExec(done), items) == TExec(done + words)
    decreases |words|
  {
    hide IsWord;
    var items := seq(|words|, k requires 0 <= k < |words| => Arg(words[k]));
    if words == [] {
      assert done + words == done;
    } else {
      var more := words[1..];
      ExecOf(more, done + [words[0]]);
      assert items[1..] == seq(|more|, k requires 0 <= k < |more| => Arg(more[k]));
      assert done + [words[0]] + more == done + words;
    }
  }

  lemma WithItemOk(u: Unit, x: Item)
    requires UnitOk(u) && ItemOk(x) && !x.Arg?
    ensures UnitOk(WithItem(u, x)) && UnitTree(WithItem(u, x)) == Add(UnitTree(u), x)
  {
    hide LineTree, LineOk, ItemOk;
    ItemsSplit(u.items, [x], if u.Simple? then TExec([]) else LineTree(u.line));
  }

  lemma {:induction false} BackedMore(t: Tree, n: nat)
    ensures Backed(t, n + 1) == TBack(Backed(t, n))
    decreases n
  {
    if n > 0 { BackedMore(TBack(t), n - 1); }
  }

  lemma {:induction false} UnitOfIs(t: Tree)
    requires Printable(t)
    ensures UnitOk(UnitOf(t)) && UnitTree(UnitOf(t)) == t
    decreases t, 0
  {
    hide IsWord;
    match t
    case TExec(words) =>
      ExecOf(words, []);
      assert [] + words == words;
    case TRedir(u, file, out) =>
      UnitOfIs(u);
      WithItemOk(UnitOf(u), if out then To(file) else From(file));
    case TPipe(l, r) =>
      UnitOfIs(l);
      PipesOfIs(r);
      var p := Bar(UnitOf(l), PipesOf(r));
      assert PipesOk(p) && PipesTree(p) == t;
      var line := Last(p, 0);
      assert LineOk(line) && LineTree(line) == t;
    case TList(l, r) =>
      BackOfIs(l);
      LineOfIs(r);
    case TBack(u) =>
      BackOfIs(u);
      BackedMore(PipesTree(BackOf(u).0), BackOf(u).1);
  }

  lemma {:induction false} PipesOfIs(t: Tree)
    requires Printable(t)
    ensures PipesOk(PipesOf(t)) && PipesTree(PipesOf(t)) == t
    decreases t, 1
  {
    if t.TPipe? {
      UnitOfIs(t.l);
      PipesOfIs(t.r);
    } else {
      UnitOfIs(t);
    }
  }

  lemma {:induction false} BackOfIs(t: Tree)
    requires Printable(t)
    ensures PipesOk(BackOf(t).0) && Backed(PipesTree(BackOf(t).0), BackOf(t).1) == t
    decreases t, 2
  {
    if t.TBack? {
      BackOfIs(t.t);
      BackedMore(PipesTree(BackOf(t.t).0), BackOf(t.t).1);
    } else {
      PipesOfIs(t);
    }
  }

  /** Every command is written by some line. */
  lemma {:induction false} LineOfIs(t: Tree)
    requires Printable(t)
    ensures LineOk(LineOf(t)) && LineTree(LineOf(t)) == t
    decreases t, 3
  {
    if t.TList? {
      BackOfIs(t.l);
      LineOfIs(t.r);
    } else {
      BackOfIs(t);
    }
  }

  /** A command printed with no more parentheses than it needs, and any blanks, is parsed back to itself. */
  lemma RoundTrip(t: Tree, gaps: seq<string>)
    requires Printable(t) && Gaps(LineToks(LineOf(t)), gaps)
    ensures var s := Render(LineToks(LineOf(t)), gaps);
            var r := Parsecmd(s); r.Ok? && TreeOf(s, r.cmd) == t
  {
    hide Parsecmd, LineToks, LineOf, Render, LineTree, TreeOf;
    LineOfIs(t);
    Parses(Render(LineToks(LineOf(t)), gaps), LineOf(t), gaps);
  }
}
