/** sh.c's parser as functions on a text and a cursor. */
module ShGrammar {
  const MAXARGS := 10

  /** A token's place in the text. */
  datatype Span = Span(q: nat, eq: nat)

  /** A redirection: of output if out, else of input. */
  datatype Redirect = Redirect(file: Span, out: bool)

  datatype Cmd = Exec(argv: seq<Span>) | Redir(cmd: Cmd, to: Redirect) | Pipe(left: Cmd, right: Cmd) | List(left: Cmd, right: Cmd) | Back(cmd: Cmd)

  /** A command, or one of the parser's panics. */
  datatype Result = Ok(cmd: Cmd, i: nat) | Panic

  predicate White(c: char) {
    c in " \t\r\n" || c as int == 11
  }

  predicate Symbol(c: char) {
    c in "<|>&;()"
  }

  predicate Word(c: char) {
    !White(c) && !Symbol(c)
  }

  function Skip(s: string, i: nat): (j: nat)
    requires i <= |s|
    ensures i <= j <= |s| && (j < |s| ==> !White(s[j])) && forall k :: i <= k < j ==> White(s[k])
    decreases |s| - i
  {
    if i < |s| && White(s[i]) then Skip(s, i + 1) else i
  }

  function WordEnd(s: string, i: nat): (j: nat)
    requires i <= |s|
    ensures i <= j <= |s| && (j < |s| ==> !Word(s[j])) && forall k :: i <= k < j ==> Word(s[k])
    decreases |s| - i
  {
    if i < |s| && Word(s[i]) then WordEnd(s, i + 1) else i
  }

  /** kind 'a' is a word, '+' is >>, 0 is the end, and otherwise the symbol itself. */
  datatype Token = Token(kind: char, q: nat, eq: nat, next: nat)

  function Gettoken(s: string, i: nat): (t: Token)
    requires i <= |s|
    ensures i <= t.q <= t.eq <= t.next <= |s| && (t.kind == '\0' <==> t.q == |s|) && (t.q < |s| ==> t.q < t.eq)
    ensures t.kind == 'a' ==> Lexeme(s, Span(t.q, t.eq))
  {
    var q := Skip(s, i);
    if q == |s| then Token('\0', q, q, q)
    else if s[q] == '>' then
      var double := q + 1 < |s| && s[q + 1] == '>';
      var eq := if double then q + 2 else q + 1;
      Token(if double then '+' else '>', q, eq, Skip(s, eq))
    else if Symbol(s[q]) then Token(s[q], q, q + 1, Skip(s, q + 1))
    else
      var eq := WordEnd(s, q);
      Token('a', q, eq, Skip(s, eq))
  }

  /** A word of the text, up to where it ends. */
  ghost predicate Lexeme(s: string, w: Span) {
    && w.q < w.eq <= |s| && (forall k :: w.q <= k < w.eq ==> Word(s[k])) && (w.eq < |s| ==> !Word(s[w.eq]))
  }

  predicate Peek(s: string, i: nat, toks: string)
    requires i <= |s|
  {
    var j := Skip(s, i);
    j < |s| && s[j] in toks
  }

  datatype Redirects = Found(rs: seq<Redirect>, i: nat) | NoFile

  /** parseredirs */
  function Redirs(s: string, i: nat): (r: Redirects)
    requires i <= |s|
    ensures r.Found? ==> i <= r.i <= |s|
    decreases |s| - i
  {
    if Peek(s, i, "<>") then
      var t := Gettoken(s, i);
      var f := Gettoken(s, t.next);
      if f.kind != 'a' then NoFile
      else match Redirs(s, f.next)
        case NoFile => NoFile
        case Found(rs, j) => Found([Redirect(Span(f.q, f.eq), t.kind != '<')] + rs, j)
    else Found([], Skip(s, i))
  }

  /** A command with redirections, the first one innermost. */
  function Wrap(c: Cmd, rs: seq<Redirect>): Cmd
    decreases |rs|
  {
    if rs == [] then c else Wrap(Redir(c, rs[0]), rs[1..])
  }

  function Redirected(c: Cmd, r: Redirects): Result {
    match r
    case NoFile => Panic
    case Found(rs, i) => Ok(Wrap(c, rs), i)
  }

  /** parseexec's loop, with the arguments and redirections so far. */
  function Args(s: string, i: nat, argv: seq<Span>, rs: seq<Redirect>): (r: Result)
    requires i <= |s|
    ensures r.Ok? ==> i <= r.i <= |s|
    decreases |s| - i
  {
    if Peek(s, i, "|)&;") then Ok(Wrap(Exec(argv), rs), Skip(s, i))
    else
      var t := Gettoken(s, i);
      if t.kind == '\0' then Ok(Wrap(Exec(argv), rs), t.next)
      else if t.kind != 'a' || |argv| + 1 >= MAXARGS then Panic
      else match Redirs(s, t.next)
        case NoFile => Panic
        case Found(rs', j) => Args(s, j, argv + [Span(t.q, t.eq)], rs + rs')
  }

  function Parseexec(s: string, i: nat): (r: Result)
    requires i <= |s|
    ensures r.Ok? ==> i <= r.i <= |s|
    decreases |s| - i, 1
  {
    if Peek(s, i, "(") then Parseblock(s, Skip(s, i))
    else match Redirs(s, i)
      case NoFile => Panic
      case Found(rs, j) => Args(s, j, [], rs)
  }

  function Parseblock(s: string, i: nat): (r: Result)
    requires i <= |s|
    ensures r.Ok? ==> i <= r.i <= |s|
    decreases |s| - i, 0
  {
    if !Peek(s, i, "(") then Panic
    else match Parseline(s, Gettoken(s, i).next)
      case Panic => Panic
      case Ok(c, j) =>
        if !Peek(s, j, ")") then Panic
        else Redirected(c, Redirs(s, Gettoken(s, j).next))
  }

  function Parsepipe(s: string, i: nat): (r: Result)
    requires i <= |s|
    ensures r.Ok? ==> i <= r.i <= |s|
    decreases |s| - i, 2
  {
    match Parseexec(s, i)
    case Panic => Panic
    case Ok(c, j) =>
      if Peek(s, j, "|") then
        match Parsepipe(s, Gettoken(s, j).next)
        case Panic => Panic
        case Ok(d, k) => Ok(Pipe(c, d), k)
      else Ok(c, Skip(s, j))
  }

  /** parseline's loop over &. */
  function Backs(s: string, i: nat, c: Cmd): (r: (Cmd, nat))
    requires i <= |s|
    ensures i <= r.1 <= |s|
    decreases |s| - i
  {
    if Peek(s, i, "&") then Backs(s, Gettoken(s, i).next, Back(c)) else (c, Skip(s, i))
  }

  function Parseline(s: string, i: nat): (r: Result)
    requires i <= |s|
    ensures r.Ok? ==> i <= r.i <= |s|
    decreases |s| - i, 3
  {
    match Parsepipe(s, i)
    case Panic => Panic
    case Ok(c, j) =>
      var (d, k) := Backs(s, j, c);
      if Peek(s, k, ";") then
        match Parseline(s, Gettoken(s, k).next)
        case Panic => Panic
        case Ok(e, l) => Ok(List(d, e), l)
      else Ok(d, Skip(s, k))
  }

  /** parsecmd before nulterminate. */
  function Parsecmd(s: string): Result {
    match Parseline(s, 0)
    case Panic => Panic
    case Ok(c, i) => if Skip(s, i) != |s| then Panic else Ok(c, |s|)
  }
}
