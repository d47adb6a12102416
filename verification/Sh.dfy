/** sh.c's parser on a buffer with a shared cursor, and nulterminate in that buffer. */
module Sh {
  import opened ShGrammar
  import opened ShProofs
  import opened ShSyntax

  class Parser {
    const buf: array<char>
    const es: nat
    var ps: nat

    /** A line in a buffer, followed by a NUL. */
    constructor (line: string)
      requires '\0' !in line
      ensures Valid() && ps == 0 && Line() == line && fresh(buf)
    {
      var all := line + ['\0'];
      buf := new char[|all|](i requires 0 <= i < |all| => all[i]);
      es := |line|;
      ps := 0;
      new;
      assert buf[..es] == line;
    }

    ghost predicate Valid()
      reads this, buf
    {
      buf.Length == es + 1 && ps <= es && buf[es] == '\0' && forall k :: 0 <= k < es ==> buf[k] != '\0'
    }

    ghost function Line(): string
      requires es <= buf.Length
      reads buf
    {
      buf[..es]
    }

    method SkipWhite(s0: nat) returns (s: nat)
      requires Valid() && s0 <= es
      ensures s == Skip(Line(), s0)
    {
      s := s0;
      while s < es && White(buf[s])
        invariant s0 <= s <= es && Skip(Line(), s0) == Skip(Line(), s)
      {
        s := s + 1;
      }
    }

    method SkipWord(q: nat) returns (s: nat)
      requires Valid() && q <= es
      ensures s == WordEnd(Line(), q)
    {
      s := q;
      while s < es && !White(buf[s]) && !Symbol(buf[s])
        invariant q <= s <= es && WordEnd(Line(), q) == WordEnd(Line(), s)
      {
        s := s + 1;
      }
    }

    /** gettoken: the kind of the next token and its place. */
    method Gettoken() returns (tok: char, q: nat, eq: nat)
      requires Valid()
      modifies this`ps
      ensures Valid()
      ensures var t := ShGrammar.Gettoken(Line(), old(ps)); tok == t.kind && q == t.q && eq == t.eq && ps == t.next
    {
      hide Skip, WordEnd, Symbol, White, Lexeme;
      q := SkipWhite(ps);
      tok := buf[q];
      Symbols(tok);
      assert q < es ==> Line()[q] == buf[q];
      assert q + 1 < es ==> Line()[q + 1] == buf[q + 1];
      var s := q;
      if tok == '\0' {
      } else if tok in "|();&<" {
        s := s + 1;
      } else if tok == '>' {
        s := s + 1;
        if buf[s] == '>' {
          tok := '+';
          s := s + 1;
        }
      } else {
        tok := 'a';
        s := SkipWord(s);
      }
      eq := s;
      ps := SkipWhite(s);
    }

    method Peek(toks: string) returns (b: bool)
      requires Valid() && '\0' !in toks
      modifies this`ps
      ensures Valid() && ps == Skip(Line(), old(ps)) && (b <==> ShGrammar.Peek(Line(), old(ps), toks))
    {
      ps := SkipWhite(ps);
      b := buf[ps] != '\0' && buf[ps] in toks;
    }

    /** parseredirs, as the redirections it adds. */
    method Parseredirs() returns (rs: seq<Redirect>, panic: bool)
      requires Valid()
      modifies this`ps
      ensures Valid() && old(ps) <= ps && Redirs(Line(), old(ps)) == if panic then NoFile else Found(rs, ps)
    {
      hide ShGrammar.Gettoken, ShGrammar.Peek, Skip, Lexeme;
      rs := [];
      ghost var i0 := ps;
      while true
        invariant Valid() && i0 <= ps && Redirs(Line(), i0) == Prefixed(rs, Redirs(Line(), ps))
        decreases es - ps
      {
        ghost var i := ps;
        var more := Peek("<>");
        PeekSkip(Line(), i, "<>");
        RedirsSkip(Line(), i);
        if !more {
          assert rs + [] == rs;
          return rs, false;
        }
        var tok, _, _ := Gettoken();
        var kind, q, eq := Gettoken();
        if kind != 'a' {
          return rs, true;
        }
        PrefixedMore(rs, Redirect(Span(q, eq), tok != '<'), Redirs(Line(), ps));
        rs := rs + [Redirect(Span(q, eq), tok != '<')];
      }
    }

    method Parseblock() returns (cmd: Cmd, panic: bool)
      requires Valid()
      modifies this`ps
      ensures Valid() && old(ps) <= ps && ShGrammar.Parseblock(Line(), old(ps)) == if panic then Panic else Ok(cmd, ps)
      decreases es - ps, 0
    {
      hide ShGrammar.Gettoken, ShGrammar.Peek, Skip, Redirs, ShGrammar.Parseline;
      cmd := Exec([]);
      ghost var i := ps;
      var open := Peek("(");
      GetSkip(Line(), i, "(");
      if !open {
        return cmd, true;
      }
      var _, _, _ := Gettoken();
      cmd, panic := Parseline();
      if panic {
        return;
      }
      i := ps;
      var close := Peek(")");
      GetSkip(Line(), i, ")");
      if !close {
        return cmd, true;
      }
      var _, _, _ := Gettoken();
      var rs;
      rs, panic := Parseredirs();
      cmd := Wrap(cmd, rs);
    }

    /** parseexec's loop. */
    method Parseargs(rs0: seq<Redirect>) returns (cmd: Cmd, panic: bool)
      requires Valid()
      modifies this`ps
      ensures Valid() && old(ps) <= ps && Args(Line(), old(ps), [], rs0) == if panic then Panic else Ok(cmd, ps)
    {
      hide ShGrammar.Gettoken, ShGrammar.Peek, Skip, Redirs, Lexeme, Wrap;
      var argv := new Span[MAXARGS](_ => Span(0, 0));
      var argc := 0;
      var rs := rs0;
      cmd := Exec([]);
      assert argv[..0] == [];
      while true
        invariant Valid() && old(ps) <= ps && 0 <= argc < MAXARGS && fresh(argv)
        invariant Args(Line(), old(ps), [], rs0) == Args(Line(), ps, argv[..argc], rs)
        decreases es - ps
      {
        ghost var i := ps;
        var stop := Peek("|)&;");
        GetSkip(Line(), i, "|)&;");
        if stop {
          break;
        }
        var tok, q, eq := Gettoken();
        if tok == '\0' {
          break;
        }
        if tok != 'a' {
          return cmd, true;
        }
        argv[argc] := Span(q, eq);
        argc := argc + 1;
        if argc >= MAXARGS {
          return cmd, true;
        }
        assert argv[..argc] == argv[..argc - 1] + [Span(q, eq)];
        var more;
        more, panic := Parseredirs();
        if panic {
          return;
        }
        rs := rs + more;
      }
      cmd := Wrap(Exec(argv[..argc]), rs);
      panic := false;
    }

    method Parseexec() returns (cmd: Cmd, panic: bool)
      requires Valid()
      modifies this`ps
      ensures Valid() && old(ps) <= ps && ShGrammar.Parseexec(Line(), old(ps)) == if panic then Panic else Ok(cmd, ps)
      decreases es - ps, 1
    {
      hide ShGrammar.Gettoken, ShGrammar.Peek, Skip, Redirs, ShGrammar.Parseblock, Args;
      ghost var i := ps;
      var open := Peek("(");
      RedirsSkip(Line(), i);
      if open {
        cmd, panic := Parseblock();
        return;
      }
      cmd := Exec([]);
      var rs;
      rs, panic := Parseredirs();
      if !panic {
        cmd, panic := Parseargs(rs);
      }
    }

    method Parsepipe() returns (cmd: Cmd, panic: bool)
      requires Valid()
      modifies this`ps
      ensures Valid() && old(ps) <= ps && ShGrammar.Parsepipe(Line(), old(ps)) == if panic then Panic else Ok(cmd, ps)
      decreases es - ps, 2
    {
      hide ShGrammar.Gettoken, ShGrammar.Peek, Skip, ShGrammar.Parseexec;
      cmd, panic := Parseexec();
      if panic {
        return;
      }
      ghost var i := ps;
      var more := Peek("|");
      GetSkip(Line(), i, "|");
      if more {
        var _, _, _ := Gettoken();
        var right;
        right, panic := Parsepipe();
        cmd := Pipe(cmd, right);
      }
    }

    method Parseline() returns (cmd: Cmd, panic: bool)
      requires Valid()
      modifies this`ps
      ensures Valid() && old(ps) <= ps && ShGrammar.Parseline(Line(), old(ps)) == if panic then Panic else Ok(cmd, ps)
      decreases es - ps, 3
    {
      hide ShGrammar.Gettoken, ShGrammar.Peek, Skip, ShGrammar.Parsepipe, Lexeme;
      cmd, panic := Parsepipe();
      if panic {
        return;
      }
      ghost var j, c := ps, cmd;
      while true
        invariant Valid() && j <= ps && Backs(Line(), j, c) == Backs(Line(), ps, cmd)
        decreases es - ps
      {
        ghost var i := ps;
        var back := Peek("&");
        GetSkip(Line(), i, "&");
        if !back {
          break;
        }
        var _, _, _ := Gettoken();
        cmd := Back(cmd);
      }
      ghost var k := ps;
      SkipSkip(Line(), k);
      var more := Peek(";");
      GetSkip(Line(), k, ";");
      if more {
        var _, _, _ := Gettoken();
        var right;
        right, panic := Parseline();
        cmd := List(cmd, right);
      }
    }

    /** nulterminate: a NUL after every token. */
    method Nulterminate(cmd: Cmd, ghost line: string)
      requires buf.Length == es + 1 && |line| == es && Good(line, cmd)
      modifies buf
      ensures forall k :: 0 <= k <= es ==> buf[k] == if Ended(cmd, k) then '\0' else old(buf[k])
      decreases cmd
    {
      hide Lexeme;
      match cmd
      case Exec(argv) =>
        var i := 0;
        while i < |argv|
          invariant 0 <= i <= |argv|
          invariant forall k :: 0 <= k <= es ==> buf[k] == if EndedBy(argv[..i], k) then '\0' else old(buf[k])
        {
          LexemeEnd(line, argv[i]);
          buf[argv[i].eq] := '\0';
          assert argv[..i + 1] == argv[..i] + [argv[i]];
          EndedMore(argv, i);
          i := i + 1;
        }
        assert argv[..i] == argv;
      case Redir(c, r) =>
        Nulterminate(c, line);
        LexemeEnd(line, r.file);
        buf[r.file.eq] := '\0';
      case Pipe(l, r) =>
        Nulterminate(l, line);
        Nulterminate(r, line);
      case List(l, r) =>
        Nulterminate(l, line);
        Nulterminate(r, line);
      case Back(c) =>
        Nulterminate(c, line);
    }

    /** parsecmd: the command, with every token a C string in the buffer; or a panic. */
    method Parsecmd() returns (cmd: Cmd, panic: bool)
      requires Valid() && ps == 0
      modifies this`ps, buf
      ensures ShGrammar.Parsecmd(old(Line())) == if panic then Panic else Ok(cmd, es)
      ensures !panic <==> exists l, gaps :: Spells(old(Line()), l, gaps)
      ensures forall l, gaps :: Spells(old(Line()), l, gaps) ==> TreeOf(old(Line()), cmd) == LineTree(l)
      ensures !panic ==> Good(old(Line()), cmd) && Strings(buf[..], old(Line()), cmd)
    {
      hide ShGrammar.Parseline, Skip, Spells, TreeOf, LineTree;
      ghost var line := Line();
      ParsesIff(line);
      cmd, panic := Parseline();
      if panic {
        return;
      }
      ghost var i := ps;
      SkipSkip(line, i);
      var _ := Peek("");
      if ps != es {
        return cmd, true;
      }
      LineGood(line, 0);
      Nulterminate(cmd, line);
      Terminated(buf[..], line, cmd);
    }
  }

  /** Some token of the command ends at k. */
  ghost predicate Ended(c: Cmd, k: int) {
    match c
    case Exec(argv) => EndedBy(argv, k)
    case Redir(d, r) => Ended(d, k) || r.file.eq == k
    case Pipe(l, r) => Ended(l, k) || Ended(r, k)
    case List(l, r) => Ended(l, k) || Ended(r, k)
    case Back(d) => Ended(d, k)
  }

  ghost predicate EndedBy(argv: seq<Span>, k: int) {
    exists n :: 0 <= n < |argv| && argv[n].eq == k
  }

  lemma EndedMore(argv: seq<Span>, i: nat)
    requires i < |argv|
    ensures forall k :: EndedBy(argv[..i + 1], k) <==> EndedBy(argv[..i], k) || argv[i].eq == k
  {
    var a, b := argv[..i], argv[..i + 1];
    assert b[i] == argv[i];
    forall k ensures EndedBy(b, k) <==> EndedBy(a, k) || argv[i].eq == k {
      if n :| 0 <= n < |a| && a[n].eq == k { assert b[n].eq == k; }
      if n :| 0 <= n < |b| && b[n].eq == k && n != i { assert a[n].eq == k; }
    }
  }

  lemma LexemeEnd(s: string, w: Span)
    requires Lexeme(s, w)
    ensures w.eq <= |s|
  {}

  /** The characters from w.q up to a NUL are those of the token in the line. */
  ghost predicate CString(b: seq<char>, line: string, w: Span) {
    w.q <= w.eq <= |line| < |b| && b[w.eq] == '\0' && b[w.q..w.eq] == line[w.q..w.eq]
  }

  ghost predicate Strings(b: seq<char>, line: string, c: Cmd) {
    match c
    case Exec(argv) => forall n :: 0 <= n < |argv| ==> CString(b, line, argv[n])
    case Redir(d, r) => Strings(b, line, d) && CString(b, line, r.file)
    case Pipe(l, r) => Strings(b, line, l) && Strings(b, line, r)
    case List(l, r) => Strings(b, line, l) && Strings(b, line, r)
    case Back(d) => Strings(b, line, d)
  }

  /** No token ends inside another: tokens end where no word character is. */
  lemma {:induction false} EndsOutside(line: string, c: Cmd, k: int)
    requires Good(line, c) && Ended(c, k)
    ensures 0 <= k <= |line| && (k < |line| ==> !Word(line[k]))
    decreases c
  {
    match c
    case Exec(argv) => var n :| 0 <= n < |argv| && argv[n].eq == k; assert Lexeme(line, argv[n]);
    case Redir(d, r) => if Ended(d, k) { EndsOutside(line, d, k); }
    case Pipe(l, r) => if Ended(l, k) { EndsOutside(line, l, k); } else { EndsOutside(line, r, k); }
    case List(l, r) => if Ended(l, k) { EndsOutside(line, l, k); } else { EndsOutside(line, r, k); }
    case Back(d) => EndsOutside(line, d, k);
  }

  lemma Terminated(b: seq<char>, line: string, c: Cmd)
    requires Good(line, c) && |b| == |line| + 1 && forall k :: 0 <= k < |line| ==> b[k] == if Ended(c, k) then '\0' else line[k]
    requires b[|line|] == '\0'
    ensures Strings(b, line, c)
  {
    forall k | 0 <= k < |line| && Ended(c, k) ensures !Word(line[k]) { EndsOutside(line, c, k); }
    TerminatedIn(b, line, c);
  }

  lemma {:induction false} TerminatedIn(b: seq<char>, line: string, c: Cmd)
    requires Good(line, c) && |b| == |line| + 1 && b[|line|] == '\0'
    requires forall k :: 0 <= k < |line| && Word(line[k]) ==> b[k] == line[k]
    requires forall k :: 0 <= k < |line| && Ended(c, k) ==> b[k] == '\0'
    ensures Strings(b, line, c)
    decreases c
  {
    match c
    case Exec(argv) =>
      forall n | 0 <= n < |argv| ensures CString(b, line, argv[n]) {
        assert Lexeme(line, argv[n]) && (argv[n].eq < |line| ==> Ended(c, argv[n].eq));
      }
    case Redir(d, r) => TerminatedIn(b, line, d);
    case Pipe(l, r) => TerminatedIn(b, line, l); TerminatedIn(b, line, r);
    case List(l, r) => TerminatedIn(b, line, l); TerminatedIn(b, line, r);
    case Back(d) => TerminatedIn(b, line, d);
  }

  /** Redirections found before the rest. */
  ghost function Prefixed(rs: seq<Redirect>, r: Redirects): Redirects {
    match r
    case NoFile => NoFile
    case Found(rs', i) => Found(rs + rs', i)
  }

  lemma PrefixedMore(rs: seq<Redirect>, r: Redirect, rest: Redirects)
    ensures Prefixed(rs, Prefixed([r], rest)) == Prefixed(rs + [r], rest)
  {
    if rest.Found? { assert rs + ([r] + rest.rs) == rs + [r] + rest.rs; }
  }

  /** Blanks before the cursor make no difference. */
  lemma GetSkip(s: string, i: nat, toks: string)
    requires i <= |s|
    ensures ShGrammar.Peek(s, i, toks) ==> ShGrammar.Gettoken(s, i).next > i
    ensures ShGrammar.Gettoken(s, Skip(s, i)) == ShGrammar.Gettoken(s, i)
    ensures Skip(s, Skip(s, i)) == Skip(s, i)
  {}

  lemma PeekSkip(s: string, i: nat, toks: string)
    requires i <= |s|
    ensures ShGrammar.Peek(s, Skip(s, i), toks) == ShGrammar.Peek(s, i, toks)
    ensures ShGrammar.Gettoken(s, Skip(s, i)) == ShGrammar.Gettoken(s, i)
  {}

  lemma RedirsSkip(s: string, i: nat)
    requires i <= |s|
    ensures Redirs(s, Skip(s, i)) == Redirs(s, i)
    ensures ShGrammar.Parseblock(s, Skip(s, i)) == ShGrammar.Parseblock(s, i)
  {
    PeekSkip(s, i, "<>");
    PeekSkip(s, i, "(");
    SkipSkip(s, i);
    hide ShGrammar.Gettoken, ShGrammar.Peek;
  }

  lemma Symbols(c: char)
    ensures Symbol(c) <==> c in "|();&<" || c == '>'
    ensures c in "|();&<" ==> c != '>'
  {}
}
