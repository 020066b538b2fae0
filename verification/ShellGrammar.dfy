/**
  The command language of the shell (src/user/sh/main.c): tokens, command trees,
  and the parser as functions on token sequences, with the rendering that it
  inverts.
 */
module ShellGrammar {

  const MAXARGS := 10

  // ------------------------------------------------------------- tokens

  datatype Token = Sym(c: char) | Append | Word(w: string)

  predicate IsSpace(c: char) {
    c == ' ' || c == '\t' || c == '\r' || c == '\n' || c == '\U{B}'
  }

  predicate IsSymbol(c: char) {
    c == '<' || c == '|' || c == '>' || c == '&' || c == ';' || c == '(' || c == ')'
  }

  predicate IsWordChar(c: char) {
    !IsSpace(c) && !IsSymbol(c)
  }

  /** The number of word characters at the start of `t`. */
  function WordLength(t: string): (n: nat)
    ensures n <= |t|
    ensures forall i :: 0 <= i < n ==> IsWordChar(t[i])
    ensures n < |t| ==> !IsWordChar(t[n])
  {
    if t == [] || !IsWordChar(t[0]) then 0 else 1 + WordLength(t[1..])
  }

  /** The tokens of a text. */
  function Tokens(t: string): seq<Token>
    decreases |t|
  {
    if t == [] then []
    else if IsSpace(t[0]) then Tokens(t[1..])
    else if t[0] == '>' && |t| > 1 && t[1] == '>' then [Append] + Tokens(t[2..])
    else if IsSymbol(t[0]) then [Sym(t[0])] + Tokens(t[1..])
    else
      var n := WordLength(t);
      [Word(t[..n])] + Tokens(t[n..])
  }

  // -------------------------------------------------------------- trees

  datatype Dir = In | Out

  datatype Cmd =
    | Exec(argv: seq<string>)
    | Redir(cmd: Cmd, file: string, dir: Dir)
    | Pipe(left: Cmd, right: Cmd)
    | List(left: Cmd, right: Cmd)
    | Back(cmd: Cmd)

  datatype Error = Syntax | MissingFile | TooManyArgs | MissingParen | Leftovers

  datatype Parsed = Ok(cmd: Cmd, rest: seq<Token>) | Err(error: Error)

  datatype Redirect = Redirect(file: string, dir: Dir)

  datatype Redirected = Redirects(list: seq<Redirect>, rest: seq<Token>) | BadRedirect

  /** The first redirection is the innermost. */
  function Wrap(cmd: Cmd, list: seq<Redirect>): Cmd {
    if list == [] then cmd
    else
      var last := list[|list| - 1];
      Redir(Wrap(cmd, list[..|list| - 1]), last.file, last.dir)
  }

  // ------------------------------------------------------------- parser

  predicate Next(ts: seq<Token>, c: char) {
    ts != [] && ts[0] == Sym(c)
  }

  predicate NextRedirect(ts: seq<Token>) {
    Next(ts, '<') || Next(ts, '>') || (ts != [] && ts[0] == Append)
  }

  /** parseredirs */
  function ParseRedirs(ts: seq<Token>, list: seq<Redirect>): (r: Redirected)
    ensures r.Redirects? ==> |r.rest| <= |ts| && !NextRedirect(r.rest)
    decreases |ts|
  {
    if !NextRedirect(ts) then Redirects(list, ts)
    else if |ts| < 2 || !ts[1].Word? then BadRedirect
    else ParseRedirs(ts[2..], list + [Redirect(ts[1].w, if ts[0] == Sym('<') then In else Out)])
  }

  predicate EndsExec(ts: seq<Token>) {
    ts == [] || Next(ts, '|') || Next(ts, ')') || Next(ts, '&') || Next(ts, ';')
  }

  /** The loop of parseexec. */
  function Args(ts: seq<Token>, argv: seq<string>, list: seq<Redirect>): (r: Parsed)
    requires |argv| < MAXARGS
    ensures r.Ok? ==> |r.rest| <= |ts|
    decreases |ts|
  {
    if EndsExec(ts) then Ok(Wrap(Exec(argv), list), ts)
    else if !ts[0].Word? then Err(Syntax)
    else if |argv| + 1 >= MAXARGS then Err(TooManyArgs)
    else
      match ParseRedirs(ts[1..], list)
      case BadRedirect => Err(MissingFile)
      case Redirects(more, rest) => Args(rest, argv + [ts[0].w], more)
  }

  function ParseExec(ts: seq<Token>): (r: Parsed)
    ensures r.Ok? ==> |r.rest| <= |ts|
    decreases |ts|, 1
  {
    if Next(ts, '(') then ParseBlock(ts)
    else
      match ParseRedirs(ts, [])
      case BadRedirect => Err(MissingFile)
      case Redirects(list, rest) => Args(rest, [], list)
  }

  function ParseBlock(ts: seq<Token>): (r: Parsed)
    requires Next(ts, '(')
    ensures r.Ok? ==> |r.rest| <= |ts|
    decreases |ts|, 0
  {
    match ParseLine(ts[1..])
    case Err(e) => Err(e)
    case Ok(cmd, rest) =>
      if !Next(rest, ')') then Err(MissingParen)
      else
        match ParseRedirs(rest[1..], [])
        case BadRedirect => Err(MissingFile)
        case Redirects(list, more) => Ok(Wrap(cmd, list), more)
  }

  function ParsePipe(ts: seq<Token>): (r: Parsed)
    ensures r.Ok? ==> |r.rest| <= |ts|
    decreases |ts|, 2
  {
    match ParseExec(ts)
    case Err(e) => Err(e)
    case Ok(cmd, rest) =>
      if !Next(rest, '|') then Ok(cmd, rest)
      else
        match ParsePipe(rest[1..])
        case Err(e) => Err(e)
        case Ok(right, more) => Ok(Pipe(cmd, right), more)
  }

  /** The `&` loop of parseline. */
  function Backs(cmd: Cmd, ts: seq<Token>): (r: (Cmd, seq<Token>))
    ensures |r.1| <= |ts| && !Next(r.1, '&')
    decreases |ts|
  {
    if Next(ts, '&') then Backs(Back(cmd), ts[1..]) else (cmd, ts)
  }

  function ParseLine(ts: seq<Token>): (r: Parsed)
    ensures r.Ok? ==> |r.rest| <= |ts|
    decreases |ts|, 3
  {
    match ParsePipe(ts)
    case Err(e) => Err(e)
    case Ok(cmd, rest) =>
      var b := Backs(cmd, rest);
      if !Next(b.1, ';') then Ok(b.0, b.1)
      else
        match ParseLine(b.1[1..])
        case Err(e) => Err(e)
        case Ok(right, more) => Ok(List(b.0, right), more)
  }

  /** parsecmd */
  function ParseTokens(ts: seq<Token>): (r: Parsed)
    ensures r.Ok? ==> r.rest == []
  {
    match ParseLine(ts)
    case Err(e) => Err(e)
    case Ok(cmd, rest) => if rest == [] then Ok(cmd, rest) else Err(Leftovers)
  }

  // ---------------------------------------------------------- rendering

  predicate IsWord(w: string) {
    w != [] && forall i :: 0 <= i < |w| ==> IsWordChar(w[i])
  }

  /** The trees that the parser can build. */
  predicate WellFormed(t: Cmd) {
    match t
    case Exec(argv) => |argv| < MAXARGS && forall i :: 0 <= i < |argv| ==> IsWord(argv[i])
    case Redir(c, file, _) => WellFormed(c) && IsWord(file)
    case Pipe(l, r) => WellFormed(l) && WellFormed(r)
    case List(l, r) => WellFormed(l) && WellFormed(r)
    case Back(c) => WellFormed(c)
  }

  function Words(argv: seq<string>): seq<Token> {
    seq(|argv|, i requires 0 <= i < |argv| => Word(argv[i]))
  }

  function Bracketed(ts: seq<Token>): seq<Token> {
    [Sym('(')] + ts + [Sym(')')]
  }

  /** The fully bracketed rendering of a tree. */
  function Render(t: Cmd): seq<Token> {
    match t
    case Exec(argv) => Words(argv)
    case Redir(c, file, dir) => Bracketed(Render(c)) + RedirTokens(file, dir)
    case Pipe(l, r) => Bracketed(Render(l)) + [Sym('|')] + Bracketed(Render(r))
    case List(l, r) => Bracketed(Render(l)) + [Sym(';')] + Bracketed(Render(r))
    case Back(c) => Bracketed(Render(c)) + [Sym('&')]
  }

  /** What may follow a rendered line: nothing, or a closing bracket. */
  predicate Closes(k: seq<Token>) {
    k == [] || k[0] == Sym(')')
  }

  lemma {:induction false} ArgsOfWords(argv: seq<string>, i: nat, k: seq<Token>)
    requires |argv| < MAXARGS && i <= |argv| && Closes(k)
    ensures Args(Words(argv)[i..] + k, argv[..i], []) == Ok(Exec(argv), k)
    decreases |argv| - i
  {
    var ts := Words(argv)[i..] + k;
    if i == |argv| {
      assert ts == k && argv[..i] == argv;
    } else {
      assert ts[0] == Word(argv[i]) && ts[1..] == Words(argv)[i + 1..] + k;
      assert !NextRedirect(ts[1..]);
      assert argv[..i] + [argv[i]] == argv[..i + 1];
      ArgsOfWords(argv, i + 1, k);
    }
  }

  /** A bracketed line is one command, whatever follows it. */
  lemma BlockOf(t: Cmd, k: seq<Token>)
    requires ParseLine(Render(t) + [Sym(')')] + k) == Ok(t, [Sym(')')] + k) && !NextRedirect(k)
    ensures ParseExec(Bracketed(Render(t)) + k) == Ok(t, k)
  {
    var ts := Bracketed(Render(t)) + k;
    assert Next(ts, '(') && ts[1..] == Render(t) + [Sym(')')] + k;
    assert ([Sym(')')] + k)[1..] == k;
    assert Wrap(t, []) == t;
  }

  function RedirTokens(file: string, dir: Dir): seq<Token> {
    [Sym(if dir == In then '<' else '>'), Word(file)]
  }

  lemma BlockRedir(t: Cmd, file: string, dir: Dir, k: seq<Token>)
    requires var more := RedirTokens(file, dir) + k;
      ParseLine(Render(t) + [Sym(')')] + more) == Ok(t, [Sym(')')] + more)
    requires !NextRedirect(k)
    ensures ParseExec(Bracketed(Render(t)) + (RedirTokens(file, dir) + k)) == Ok(Redir(t, file, dir), k)
  {
    hide ParseLine, Args;
    var more := RedirTokens(file, dir) + k;
    var ts := Bracketed(Render(t)) + more;
    assert Next(ts, '(') && ts[1..] == Render(t) + [Sym(')')] + more;
    assert ([Sym(')')] + more)[1..] == more;
    OneRedirect(t, file, dir, k);
  }

  lemma OneRedirect(t: Cmd, file: string, dir: Dir, k: seq<Token>)
    requires !NextRedirect(k)
    ensures ParseRedirs(RedirTokens(file, dir) + k, []) == Redirects([Redirect(file, dir)], k)
    ensures Wrap(t, [Redirect(file, dir)]) == Redir(t, file, dir)
  {
    var more := RedirTokens(file, dir) + k;
    assert more[2..] == k;
    assert [] + [Redirect(file, dir)] == [Redirect(file, dir)];
    assert [Redirect(file, dir)][..0] == [];
    assert Wrap(t, []) == t;
  }

  lemma Split(a: seq<Token>, x: Token, b: seq<Token>, k: seq<Token>)
    ensures a + [x] + b + k == a + ([x] + b + k)
    ensures ([x] + b + k)[1..] == b + k
  {
    assert [x] + b + k == [x] + (b + k);
  }

  /** Parsing the rendering of a tree gives the tree back. */
  lemma {:induction false} ParseRender(t: Cmd, k: seq<Token>)
    requires WellFormed(t) && Closes(k)
    ensures ParseLine(Render(t) + k) == Ok(t, k)
    decreases t, 0
  {
    hide ParseLine, ParseExec, Render;
    match t
    case Exec(argv) =>
      ExecLine(argv, k);
    case Redir(c, file, dir) =>
      ParseRender(c, [Sym(')')] + (RedirTokens(file, dir) + k));
      RedirLine(c, file, dir, k);
    case Pipe(l, r) =>
      Operand(l, [Sym('|')] + Bracketed(Render(r)) + k);
      Operand(r, k);
      PipeLine(l, r, k);
    case List(l, r) =>
      Operand(l, [Sym(';')] + Bracketed(Render(r)) + k);
      Operand(r, k);
      ListLine(l, r, k);
    case Back(c) =>
      Operand(c, [Sym('&')] + [] + k);
      BackLine(c, k);
  }

  lemma RedirLine(c: Cmd, file: string, dir: Dir, k: seq<Token>)
    requires var more := [Sym(')')] + (RedirTokens(file, dir) + k); ParseLine(Render(c) + more) == Ok(c, more)
    requires Closes(k)
    ensures var t := Redir(c, file, dir); ParseLine(Render(t) + k) == Ok(t, k)
  {
    hide ParseLine, ParseExec, Bracketed;
    var t := Redir(c, file, dir);
    var more := RedirTokens(file, dir) + k;
    assert Render(c) + ([Sym(')')] + more) == Render(c) + [Sym(')')] + more;
    BlockRedir(c, file, dir, k);
    assert Render(t) + k == Bracketed(Render(c)) + more;
    LineOfExec(Render(t) + k, t, k);
  }

  lemma PipeLine(l: Cmd, r: Cmd, k: seq<Token>)
    requires var tail := [Sym('|')] + Bracketed(Render(r)) + k; ParseExec(Bracketed(Render(l)) + tail) == Ok(l, tail)
    requires ParseExec(Bracketed(Render(r)) + k) == Ok(r, k) && Closes(k)
    ensures ParseLine(Render(Pipe(l, r)) + k) == Ok(Pipe(l, r), k)
  {
    hide ParseLine, ParseExec, Bracketed;
    Split(Bracketed(Render(l)), Sym('|'), Bracketed(Render(r)), k);
    LineOfPipe(Render(Pipe(l, r)) + k, l, r, [Sym('|')] + Bracketed(Render(r)) + k, k);
  }

  lemma ListLine(l: Cmd, r: Cmd, k: seq<Token>)
    requires var tail := [Sym(';')] + Bracketed(Render(r)) + k; ParseExec(Bracketed(Render(l)) + tail) == Ok(l, tail)
    requires ParseExec(Bracketed(Render(r)) + k) == Ok(r, k) && Closes(k)
    ensures ParseLine(Render(List(l, r)) + k) == Ok(List(l, r), k)
  {
    hide ParseLine, ParseExec, Bracketed;
    Split(Bracketed(Render(l)), Sym(';'), Bracketed(Render(r)), k);
    LineOfExec(Bracketed(Render(r)) + k, r, k);
    LineOfList(Render(List(l, r)) + k, l, r, [Sym(';')] + Bracketed(Render(r)) + k, k);
  }

  lemma BackLine(c: Cmd, k: seq<Token>)
    requires var tail := [Sym('&')] + [] + k; ParseExec(Bracketed(Render(c)) + tail) == Ok(c, tail)
    requires Closes(k)
    ensures ParseLine(Render(Back(c)) + k) == Ok(Back(c), k)
  {
    hide ParseLine, ParseExec, Bracketed;
    var tail := [Sym('&')] + [] + k;
    Split(Bracketed(Render(c)), Sym('&'), [], k);
    assert Render(Back(c)) + k == Bracketed(Render(c)) + tail && tail[1..] == k;
    LineOfBack(Render(Back(c)) + k, c, tail, k);
  }

  /** A bracketed subtree. */
  lemma {:induction false} Operand(t: Cmd, k: seq<Token>)
    requires WellFormed(t) && !NextRedirect(k)
    ensures ParseExec(Bracketed(Render(t)) + k) == Ok(t, k)
    decreases t, 1
  {
    hide ParseLine, ParseExec, Bracketed, Render;
    ParseRender(t, [Sym(')')] + k);
    assert Render(t) + ([Sym(')')] + k) == Render(t) + [Sym(')')] + k;
    BlockOf(t, k);
  }

  lemma ExecLine(argv: seq<string>, k: seq<Token>)
    requires |argv| < MAXARGS && Closes(k)
    ensures ParseLine(Render(Exec(argv)) + k) == Ok(Exec(argv), k)
  {
    hide ParseLine;
    var ts := Words(argv) + k;
    assert Words(argv)[0..] == Words(argv) && argv[..0] == [];
    ArgsOfWords(argv, 0, k);
    assert !NextRedirect(ts) && !Next(ts, '(');
    LineOfExec(ts, Exec(argv), k);
  }

  lemma LineOfExec(ts: seq<Token>, t: Cmd, k: seq<Token>)
    requires ParseExec(ts) == Ok(t, k) && Closes(k)
    ensures ParseLine(ts) == Ok(t, k) && ParsePipe(ts) == Ok(t, k)
  {
  }

  lemma LineOfPipe(ts: seq<Token>, l: Cmd, r: Cmd, tail: seq<Token>, k: seq<Token>)
    requires ParseExec(ts) == Ok(l, tail) && Next(tail, '|') && ParseExec(tail[1..]) == Ok(r, k) && Closes(k)
    ensures ParseLine(ts) == Ok(Pipe(l, r), k)
  {
    LineOfExec(tail[1..], r, k);
    assert ParsePipe(ts) == Ok(Pipe(l, r), k);
  }

  lemma LineOfList(ts: seq<Token>, l: Cmd, r: Cmd, tail: seq<Token>, k: seq<Token>)
    requires ParseExec(ts) == Ok(l, tail) && Next(tail, ';') && ParseLine(tail[1..]) == Ok(r, k) && Closes(k)
    ensures ParseLine(ts) == Ok(List(l, r), k)
  {
    assert ParsePipe(ts) == Ok(l, tail);
  }

  lemma LineOfBack(ts: seq<Token>, c: Cmd, tail: seq<Token>, k: seq<Token>)
    requires ParseExec(ts) == Ok(c, tail) && Next(tail, '&') && tail[1..] == k && Closes(k)
    ensures ParseLine(ts) == Ok(Back(c), k)
  {
    assert ParsePipe(ts) == Ok(c, tail);
    assert Backs(Back(c), k) == (Back(c), k);
  }

  // ------------------------------------------ what the parser can build

  /** Every word of the tokens is a word. */
  predicate GoodTokens(ts: seq<Token>) {
    forall i :: 0 <= i < |ts| && ts[i].Word? ==> IsWord(ts[i].w)
  }

  predicate GoodRedirects(list: seq<Redirect>) {
    forall i :: 0 <= i < |list| ==> IsWord(list[i].file)
  }

  lemma {:induction false} WrapWellFormed(cmd: Cmd, list: seq<Redirect>)
    requires WellFormed(cmd) && GoodRedirects(list)
    ensures WellFormed(Wrap(cmd, list))
  {
    if list != [] {
      WrapWellFormed(cmd, list[..|list| - 1]);
    }
  }

  lemma {:induction false} RedirectsGood(ts: seq<Token>, list: seq<Redirect>)
    requires GoodTokens(ts) && GoodRedirects(list)
    ensures var r := ParseRedirs(ts, list); r.Redirects? ==> GoodTokens(r.rest) && GoodRedirects(r.list)
    decreases |ts|
  {
    if NextRedirect(ts) && |ts| >= 2 && ts[1].Word? {
      RedirectsGood(ts[2..], list + [Redirect(ts[1].w, if ts[0] == Sym('<') then In else Out)]);
    }
  }

  lemma {:induction false} ArgsGood(ts: seq<Token>, argv: seq<string>, list: seq<Redirect>)
    requires GoodTokens(ts) && GoodRedirects(list) && WellFormed(Exec(argv))
    ensures var r := Args(ts, argv, list); r.Ok? ==> WellFormed(r.cmd) && GoodTokens(r.rest)
    decreases |ts|
  {
    if EndsExec(ts) {
      WrapWellFormed(Exec(argv), list);
    } else if ts[0].Word? && |argv| + 1 < MAXARGS {
      RedirectsGood(ts[1..], list);
      var r := ParseRedirs(ts[1..], list);
      if r.Redirects? {
        ArgsGood(r.rest, argv + [ts[0].w], r.list);
      }
    }
  }

  lemma {:induction false} ExecGood(ts: seq<Token>)
    requires GoodTokens(ts)
    ensures var r := ParseExec(ts); r.Ok? ==> WellFormed(r.cmd) && GoodTokens(r.rest)
    decreases |ts|, 1
  {
    if Next(ts, '(') {
      LineGood(ts[1..]);
      var r := ParseLine(ts[1..]);
      if r.Ok? && Next(r.rest, ')') {
        RedirectsGood(r.rest[1..], []);
        var d := ParseRedirs(r.rest[1..], []);
        if d.Redirects? {
          WrapWellFormed(r.cmd, d.list);
        }
      }
    } else {
      RedirectsGood(ts, []);
      var d := ParseRedirs(ts, []);
      if d.Redirects? {
        ArgsGood(d.rest, [], d.list);
      }
    }
  }

  lemma {:induction false} PipeGood(ts: seq<Token>)
    requires GoodTokens(ts)
    ensures var r := ParsePipe(ts); r.Ok? ==> WellFormed(r.cmd) && GoodTokens(r.rest)
    decreases |ts|, 2
  {
    ExecGood(ts);
    var r := ParseExec(ts);
    if r.Ok? && Next(r.rest, '|') {
      PipeGood(r.rest[1..]);
    }
  }

  lemma {:induction false} BacksGood(cmd: Cmd, ts: seq<Token>)
    requires WellFormed(cmd) && GoodTokens(ts)
    ensures WellFormed(Backs(cmd, ts).0) && GoodTokens(Backs(cmd, ts).1)
    decreases |ts|
  {
    if Next(ts, '&') {
      BacksGood(Back(cmd), ts[1..]);
    }
  }

  lemma {:induction false} LineGood(ts: seq<Token>)
    requires GoodTokens(ts)
    ensures var r := ParseLine(ts); r.Ok? ==> WellFormed(r.cmd) && GoodTokens(r.rest)
    decreases |ts|, 3
  {
    PipeGood(ts);
    var r := ParsePipe(ts);
    if r.Ok? {
      BacksGood(r.cmd, r.rest);
      var b := Backs(r.cmd, r.rest);
      if Next(b.1, ';') {
        LineGood(b.1[1..]);
      }
    }
  }

  lemma {:induction false} TokensGood(t: string)
    ensures GoodTokens(Tokens(t))
    decreases |t|
  {
    if t != [] {
      if IsSpace(t[0]) {
        TokensGood(t[1..]);
      } else if t[0] == '>' && |t| > 1 && t[1] == '>' {
        TokensGood(t[2..]);
      } else if IsSymbol(t[0]) {
        TokensGood(t[1..]);
      } else {
        TokensGood(t[WordLength(t)..]);
      }
    }
  }

  // ------------------------------------------- appending is not recorded

  /** Every `>>` written as `>`. */
  function Plain(ts: seq<Token>): (r: seq<Token>)
    ensures |r| == |ts|
  {
    seq(|ts|, i requires 0 <= i < |ts| => if ts[i] == Append then Sym('>') else ts[i])
  }

  function PlainRest(p: Parsed): Parsed {
    match p
    case Ok(cmd, rest) => Ok(cmd, Plain(rest))
    case Err(e) => Err(e)
  }

  lemma PlainNext(ts: seq<Token>, c: char)
    requires c != '>'
    ensures Next(Plain(ts), c) <==> Next(ts, c)
    ensures NextRedirect(Plain(ts)) <==> NextRedirect(ts)
  {
  }

  lemma PlainDrop(ts: seq<Token>, n: nat)
    requires n <= |ts|
    ensures Plain(ts)[n..] == Plain(ts[n..])
  {
  }

  lemma {:induction false} PlainRedirs(ts: seq<Token>, list: seq<Redirect>)
    ensures var r := ParseRedirs(ts, list);
      ParseRedirs(Plain(ts), list) == if r.BadRedirect? then r else Redirects(r.list, Plain(r.rest))
    decreases |ts|
  {
    PlainNext(ts, '<');
    if NextRedirect(ts) && |ts| >= 2 && ts[1].Word? {
      PlainDrop(ts, 2);
      PlainRedirs(ts[2..], list + [Redirect(ts[1].w, if ts[0] == Sym('<') then In else Out)]);
    }
  }

  lemma PlainEnds(ts: seq<Token>)
    ensures EndsExec(Plain(ts)) <==> EndsExec(ts)
  {
    PlainNext(ts, '|');
    PlainNext(ts, ')');
    PlainNext(ts, '&');
    PlainNext(ts, ';');
  }

  lemma {:induction false} PlainArgs(ts: seq<Token>, argv: seq<string>, list: seq<Redirect>)
    requires |argv| < MAXARGS
    ensures Args(Plain(ts), argv, list) == PlainRest(Args(ts, argv, list))
    decreases |ts|
  {
    hide EndsExec;
    PlainEnds(ts);
    if !EndsExec(ts) && |ts| > 0 && ts[0].Word? && |argv| + 1 < MAXARGS {
      PlainDrop(ts, 1);
      PlainRedirs(ts[1..], list);
      var r := ParseRedirs(ts[1..], list);
      if r.Redirects? {
        PlainArgs(r.rest, argv + [ts[0].w], r.list);
      }
    }
  }

  lemma {:induction false} PlainExec(ts: seq<Token>)
    ensures ParseExec(Plain(ts)) == PlainRest(ParseExec(ts))
    decreases |ts|, 1
  {
    hide Args, ParseLine, ParseRedirs;
    PlainNext(ts, '(');
    if Next(ts, '(') {
      PlainDrop(ts, 1);
      PlainLine(ts[1..]);
      var r := ParseLine(ts[1..]);
      if r.Ok? {
        PlainNext(r.rest, ')');
        if Next(r.rest, ')') {
          PlainDrop(r.rest, 1);
          PlainRedirs(r.rest[1..], []);
        }
      }
    } else {
      PlainRedirs(ts, []);
      var d := ParseRedirs(ts, []);
      if d.Redirects? {
        PlainArgs(d.rest, [], d.list);
      }
    }
  }

  lemma {:induction false} PlainPipe(ts: seq<Token>)
    ensures ParsePipe(Plain(ts)) == PlainRest(ParsePipe(ts))
    decreases |ts|, 2
  {
    hide ParseExec;
    PlainExec(ts);
    var r := ParseExec(ts);
    if r.Ok? {
      PlainNext(r.rest, '|');
      if Next(r.rest, '|') {
        PlainDrop(r.rest, 1);
        PlainPipe(r.rest[1..]);
      }
    }
  }

  lemma {:induction false} PlainBacks(cmd: Cmd, ts: seq<Token>)
    ensures Backs(cmd, Plain(ts)) == (Backs(cmd, ts).0, Plain(Backs(cmd, ts).1))
    decreases |ts|
  {
    PlainNext(ts, '&');
    if Next(ts, '&') {
      PlainDrop(ts, 1);
      PlainBacks(Back(cmd), ts[1..]);
    }
  }

  lemma {:induction false} PlainLine(ts: seq<Token>)
    ensures ParseLine(Plain(ts)) == PlainRest(ParseLine(ts))
    decreases |ts|, 3
  {
    hide ParsePipe, Backs;
    PlainPipe(ts);
    var r := ParsePipe(ts);
    if r.Ok? {
      PlainBacks(r.cmd, r.rest);
      var b := Backs(r.cmd, r.rest);
      PlainNext(b.1, ';');
      if Next(b.1, ';') {
        PlainDrop(b.1, 1);
        PlainLine(b.1[1..]);
      }
    }
  }

  /** The parser does not tell `>>` from `>`. */
  lemma AppendIsForgotten(ts: seq<Token>)
    ensures ParseTokens(Plain(ts)) == ParseTokens(ts)
  {
    hide ParseLine;
    PlainLine(ts);
  }
}
