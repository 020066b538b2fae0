/**
  The shell parser on text (gettoken, peek, parsecmd and the functions between
  them in src/user/sh/main.c), against the parser on tokens.  A position is an
  index into the line `s`; the end of the line plays the part of its NUL.
 */
module ShellParser {
  import opened ShellGrammar

  // --------------------------------------------------------- rendering

  function TokenText(t: Token): string {
    match t
    case Sym(c) => [c, ' ']
    case Append => ">> "
    case Word(w) => w + " "
  }

  /** The text of a token sequence. */
  function Text(ts: seq<Token>): string {
    if ts == [] then "" else TokenText(ts[0]) + Text(ts[1..])
  }

  predicate LegalToken(t: Token) {
    match t
    case Sym(c) => IsSymbol(c)
    case Append => true
    case Word(w) => IsWord(w)
  }

  lemma {:induction false} WordThenSpace(w: string, rest: string)
    requires forall i :: 0 <= i < |w| ==> IsWordChar(w[i])
    ensures WordLength(w + " " + rest) == |w|
  {
    var t := w + " " + rest;
    if w != [] {
      assert t[1..] == w[1..] + " " + rest;
      WordThenSpace(w[1..], rest);
    }
  }

  lemma OneToken(t: Token, rest: string)
    requires LegalToken(t)
    ensures Tokens(TokenText(t) + rest) == [t] + Tokens(rest)
  {
    var s := TokenText(t) + rest;
    var sp := " " + rest;
    assert sp[1..] == rest;
    assert Tokens(sp) == Tokens(rest);
    match t
    case Sym(c) =>
      assert s[1..] == sp;
    case Append =>
      assert s[2..] == sp;
    case Word(w) =>
      WordThenSpace(w, rest);
      assert s == w + " " + rest && s[..|w|] == w && s[|w|..] == sp;
  }

  /** Scanning the text of tokens gives the tokens back. */
  lemma {:induction false} ScanText(ts: seq<Token>)
    requires forall i :: 0 <= i < |ts| ==> LegalToken(ts[i])
    ensures Tokens(Text(ts)) == ts
  {
    if ts != [] {
      OneToken(ts[0], Text(ts[1..]));
      ScanText(ts[1..]);
    }
  }

  lemma {:induction false} RenderLegal(t: Cmd)
    requires WellFormed(t)
    ensures forall i :: 0 <= i < |Render(t)| ==> LegalToken(Render(t)[i])
  {
    match t
    case Exec(argv) =>
    case Redir(c, file, dir) => RenderLegal(c);
    case Pipe(l, r) => RenderLegal(l); RenderLegal(r);
    case List(l, r) => RenderLegal(l); RenderLegal(r);
    case Back(c) => RenderLegal(c);
  }

  /** parsecmd of a line. */
  function ParseText(s: string): Parsed {
    ParseTokens(Tokens(s))
  }

  /** For every tree with at most nine words in each command, parsing its
      bracketed text gives the tree back. */
  lemma RoundTrip(t: Cmd)
    requires WellFormed(t)
    ensures ParseText(Text(Render(t))) == Ok(t, [])
  {
    RenderLegal(t);
    ScanText(Render(t));
    ParseRender(t, []);
    assert Render(t) + [] == Render(t);
  }

  /** Every line that parses gives such a tree, so rendering what was parsed and
      parsing it again changes nothing. */
  lemma ParsedIsWellFormed(s: string)
    requires ParseText(s).Ok?
    ensures WellFormed(ParseText(s).cmd)
    ensures ParseText(Text(Render(ParseText(s).cmd))) == ParseText(s)
  {
    TokensGood(s);
    LineGood(Tokens(s));
    RoundTrip(ParseText(s).cmd);
  }

  /** Two lines, one that overwrites a file and one that appends to it, with the same
      tree. */
  lemma TwoLinesOneTree()
    ensures ParseText("a > f ") == ParseText("a >> f ") == Ok(Redir(Exec(["a"]), "f", Out), [])
  {
    var ts := [Word("a"), Append, Word("f")];
    var plain := [Word("a"), Sym('>'), Word("f")];
    assert Plain(ts) == plain;
    TextOfThree(ts[0], ts[1], ts[2]);
    TextOfThree(plain[0], plain[1], plain[2]);
    assert Text(ts) == "a >> f " && Text(plain) == "a > f ";
    ScanText(ts);
    ScanText(plain);
    AppendIsForgotten(ts);
    RedirectedWord(plain);
  }

  lemma TextOfThree(a: Token, b: Token, c: Token)
    ensures Text([a, b, c]) == TokenText(a) + TokenText(b) + TokenText(c)
  {
    assert [a, b, c][1..] == [b, c] && [b, c][1..] == [c] && [c][1..] == [];
    assert Text([c]) == TokenText(c) + Text([]) == TokenText(c);
    assert Text([b, c]) == TokenText(b) + Text([c]);
  }

  lemma RedirectedWord(ts: seq<Token>)
    requires ts == [Word("a"), Sym('>'), Word("f")]
    ensures ParseTokens(ts) == Ok(Redir(Exec(["a"]), "f", Out), [])
  {
    hide ParseLine;
    OneRedirect(Exec(["a"]), "f", Out, []);
    assert ts[1..] == RedirTokens("f", Out) + [];
    assert [] + ["a"] == ["a"];
    assert Args([], ["a"], [Redirect("f", Out)]) == Ok(Redir(Exec(["a"]), "f", Out), []);
    assert Args(ts, [], []) == Ok(Redir(Exec(["a"]), "f", Out), []);
    LineOfExec(ts, Redir(Exec(["a"]), "f", Out), []);
  }

  // ---------------------------------------------------------- scanning

  lemma SkipSpace(s: string, i: nat)
    requires i < |s| && IsSpace(s[i])
    ensures Tokens(s[i..]) == Tokens(s[i + 1..])
  {
    assert s[i..][1..] == s[i + 1..];
  }

  /** The token that gettoken returns. */
  function TokenOf(ret: char, text: string): Token {
    if ret == 'a' then Word(text) else if ret == '+' then Append else Sym(ret)
  }

  /** The scan of one token that starts at `q`, which is no space. */
  lemma TokenAt(s: string, q: nat)
    requires q < |s| && !IsSpace(s[q])
    ensures s[q] == '>' && q + 1 < |s| && s[q + 1] == '>' ==> Tokens(s[q..]) == [Append] + Tokens(s[q + 2..])
    ensures s[q] == '>' && !(q + 1 < |s| && s[q + 1] == '>') ==> Tokens(s[q..]) == [Sym('>')] + Tokens(s[q + 1..])
    ensures IsSymbol(s[q]) && s[q] != '>' ==> Tokens(s[q..]) == [Sym(s[q])] + Tokens(s[q + 1..])
    ensures !IsSymbol(s[q]) ==>
      Tokens(s[q..]) == [Word(s[q..q + WordLength(s[q..])])] + Tokens(s[q + WordLength(s[q..])..])
  {
    hide WordLength, Tokens;
    if IsSymbol(s[q]) {
      SymbolAt(s, q);
    } else {
      WordAt(s, q);
    }
  }

  lemma SymbolAt(s: string, q: nat)
    requires q < |s| && !IsSpace(s[q]) && IsSymbol(s[q])
    ensures s[q] == '>' && q + 1 < |s| && s[q + 1] == '>' ==> Tokens(s[q..]) == [Append] + Tokens(s[q + 2..])
    ensures !(s[q] == '>' && q + 1 < |s| && s[q + 1] == '>') ==> Tokens(s[q..]) == [Sym(s[q])] + Tokens(s[q + 1..])
  {
    hide WordLength;
    var t := s[q..];
    assert t[1..] == s[q + 1..];
    if q + 1 < |s| {
      assert t[2..] == s[q + 2..];
    }
  }

  lemma WordAt(s: string, q: nat)
    requires q < |s| && !IsSpace(s[q]) && !IsSymbol(s[q])
    ensures var n := WordLength(s[q..]); Tokens(s[q..]) == [Word(s[q..q + n])] + Tokens(s[q + n..])
  {
    hide WordLength;
    var t := s[q..];
    var n := WordLength(t);
    assert t[..n] == s[q..q + n] && t[n..] == s[q + n..];
  }

  lemma {:induction false} WordEnds(s: string, q: nat, e: nat)
    requires q <= e <= |s| && (forall i :: q <= i < e ==> IsWordChar(s[i])) && (e < |s| ==> !IsWordChar(s[e]))
    ensures WordLength(s[q..]) == e - q
    decreases e - q
  {
    if q < e {
      assert s[q..][1..] == s[q + 1..];
      WordEnds(s, q + 1, e);
    }
  }

  /** gettoken: its result and the text between `q` and `eq` are the next token,
      and the new position is before the remaining tokens. */
  method GetToken(s: string, i: nat) returns (ret: char, q: nat, eq: nat, j: nat)
    requires i <= |s| && '\0' !in s
    ensures i <= q <= eq <= j <= |s|
    ensures Tokens(s[i..]) == [] ==> ret == '\0' && j == |s|
    ensures Tokens(s[i..]) != [] ==>
      ret != '\0' && i < j && Tokens(s[i..]) == [TokenOf(ret, s[q..eq])] + Tokens(s[j..])
    ensures ret != 'a' && ret != '+' && ret != '\0' ==> IsSymbol(ret)
  {
    hide Tokens;
    j := i;
    while j < |s| && IsSpace(s[j])
      invariant i <= j <= |s| && Tokens(s[j..]) == Tokens(s[i..])
    {
      SkipSpace(s, j);
      j := j + 1;
    }
    q := j;
    if j == |s| {
      NoTokens(s[j..]);
      return '\0', q, j, j;
    }
    TokenAt(s, q);
    ret := s[j];
    assert ret in s;
    if ret == '>' {
      j := j + 1;
      if j < |s| && s[j] == '>' {
        ret := '+';
        j := j + 1;
      }
    } else if IsSymbol(ret) {
      j := j + 1;
    } else {
      ret := 'a';
      while j < |s| && !IsSpace(s[j]) && !IsSymbol(s[j])
        invariant q <= j <= |s| && forall k :: q <= k < j ==> IsWordChar(s[k])
      {
        j := j + 1;
      }
      WordEnds(s, q, j);
    }
    eq := j;
    assert Tokens(s[i..]) == [TokenOf(ret, s[q..eq])] + Tokens(s[j..]);
    while j < |s| && IsSpace(s[j])
      invariant eq <= j <= |s| && Tokens(s[j..]) == Tokens(s[eq..])
    {
      SkipSpace(s, j);
      j := j + 1;
    }
  }

  lemma NoTokens(t: string)
    requires t == []
    ensures Tokens(t) == []
  {
  }

  /** peek: skips space, and looks at the next character. */
  method Peek(s: string, i: nat, toks: string) returns (hit: bool, j: nat)
    requires i <= |s|
    ensures i <= j <= |s| && Tokens(s[j..]) == Tokens(s[i..])
    ensures j < |s| ==> !IsSpace(s[j])
    ensures hit <==> j < |s| && s[j] in toks
  {
    hide Tokens;
    j := i;
    while j < |s| && IsSpace(s[j])
      invariant i <= j <= |s| && Tokens(s[j..]) == Tokens(s[i..])
    {
      SkipSpace(s, j);
      j := j + 1;
    }
    hit := j < |s| && s[j] in toks;
  }

  /** What a character that is no space says about the next token. */
  lemma Ahead(s: string, j: nat)
    requires j <= |s| && (j < |s| ==> !IsSpace(s[j]))
    ensures var ts := Tokens(s[j..]);
      && (ts == [] <==> j == |s|)
      && (forall c :: IsSymbol(c) && c != '>' ==> (Next(ts, c) <==> j < |s| && s[j] == c))
      && (NextRedirect(ts) <==> j < |s| && (s[j] == '<' || s[j] == '>'))
  {
    if j < |s| {
      TokenAt(s, j);
    } else {
      NoTokens(s[j..]);
    }
  }

  // ----------------------------------------------------------- parsing

  datatype Outcome = Done(cmd: Cmd) | Failed(error: Error)

  /** The method is at position `j` where the parser on tokens is at `p.rest`. */
  ghost predicate Agrees(p: Parsed, o: Outcome, s: string, i: nat, j: nat) {
    match p
    case Err(e) => o == Failed(e)
    case Ok(cmd, rest) => o == Done(cmd) && i <= j <= |s| && Tokens(s[j..]) == rest
  }

  /** parseredirs, for redirections after those in `list`. */
  method ParseRedirects(s: string, i: nat, list: seq<Redirect>) returns (ok: bool, more: seq<Redirect>, j: nat)
    requires i <= |s| && '\0' !in s
    ensures i <= j <= |s|
    ensures match ParseRedirs(Tokens(s[i..]), list)
      case BadRedirect => !ok
      case Redirects(l, rest) => ok && more == l && rest == Tokens(s[j..])
  {
    hide Tokens;
    more := list;
    var hit;
    hit, j := Peek(s, i, "<>");
    Ahead(s, j);
    while hit
      invariant i <= j <= |s| && (hit <==> NextRedirect(Tokens(s[j..])))
      invariant ParseRedirs(Tokens(s[j..]), more) == ParseRedirs(Tokens(s[i..]), list)
      decreases |s| - j
    {
      var tok, q, eq, k, ret;
      ghost var ts := Tokens(s[j..]);
      tok, q, eq, k := GetToken(s, j);
      assert ts[1..] == Tokens(s[k..]);
      ret, q, eq, j := GetToken(s, k);
      assert Tokens(s[k..]) != [] ==> Tokens(s[k..])[0] == TokenOf(ret, s[q..eq]);
      if ret != 'a' {
        return false, more, j;
      }
      assert ts[2..] == Tokens(s[j..]);
      more := more + [Redirect(s[q..eq], if tok == '<' then In else Out)];
      hit, j := Peek(s, j, "<>");
      Ahead(s, j);
    }
    return true, more, j;
  }

  /** parseexec */
  method ParseExecText(s: string, i: nat) returns (o: Outcome, j: nat)
    requires i <= |s| && '\0' !in s
    ensures Agrees(ParseExec(Tokens(s[i..])), o, s, i, j)
    decreases |s| - i, 1
  {
    hide Tokens, ParseRedirs, Args, ParseBlock;
    var hit;
    hit, j := Peek(s, i, "(");
    Ahead(s, j);
    if hit {
      o, j := ParseBlockText(s, j);
      return;
    }
    var ok, list;
    ok, list, j := ParseRedirects(s, j, []);
    if !ok {
      return Failed(MissingFile), j;
    }
    o, j := ParseArgs(s, j, list);
  }

  /** The loop of parseexec. */
  method ParseArgs(s: string, i: nat, list: seq<Redirect>) returns (o: Outcome, j: nat)
    requires i <= |s| && '\0' !in s && !NextRedirect(Tokens(s[i..]))
    ensures Agrees(Args(Tokens(s[i..]), [], list), o, s, i, j)
  {
    hide Tokens, ParseRedirs;
    var argv: seq<string>, more := [], list;
    var hit, ok;
    hit, j := Peek(s, i, "|)&;");
    Ahead(s, j);
    while !hit
      invariant i <= j <= |s| && |argv| < MAXARGS
      invariant Args(Tokens(s[j..]), argv, more) == Args(Tokens(s[i..]), [], list)
      invariant hit ==> EndsExec(Tokens(s[j..]))
      invariant !hit && Tokens(s[j..]) != [] ==> !EndsExec(Tokens(s[j..]))
      decreases |s| - j, !hit
    {
      ghost var ts := Tokens(s[j..]);
      var tok, q, eq;
      tok, q, eq, j := GetToken(s, j);
      if tok == '\0' {
        NoTokens(s[j..]);
        break;
      }
      assert ts[0] == TokenOf(tok, s[q..eq]) && ts[1..] == Tokens(s[j..]);
      if tok != 'a' {
        return Failed(Syntax), j;
      }
      argv := argv + [s[q..eq]];
      if |argv| >= MAXARGS {
        return Failed(TooManyArgs), j;
      }
      ok, more, j := ParseRedirects(s, j, more);
      if !ok {
        return Failed(MissingFile), j;
      }
      hit, j := Peek(s, j, "|)&;");
      Ahead(s, j);
    }
    o := Done(Wrap(Exec(argv), more));
  }

  /** parseblock */
  method ParseBlockText(s: string, i: nat) returns (o: Outcome, j: nat)
    requires i <= |s| && '\0' !in s && Next(Tokens(s[i..]), '(')
    ensures Agrees(ParseBlock(Tokens(s[i..])), o, s, i, j)
    decreases |s| - i, 0
  {
    hide Tokens, ParseRedirs, ParseLine;
    var tok, q, eq;
    tok, q, eq, j := GetToken(s, i);
    assert Tokens(s[i..])[1..] == Tokens(s[j..]);
    o, j := ParseLineText(s, j);
    if o.Failed? {
      return;
    }
    var hit;
    hit, j := Peek(s, j, ")");
    Ahead(s, j);
    if !hit {
      return Failed(MissingParen), j;
    }
    ghost var ts := Tokens(s[j..]);
    tok, q, eq, j := GetToken(s, j);
    assert ts[1..] == Tokens(s[j..]);
    var ok, list;
    ok, list, j := ParseRedirects(s, j, []);
    if !ok {
      return Failed(MissingFile), j;
    }
    o := Done(Wrap(o.cmd, list));
  }

  /** parsepipe */
  method ParsePipeText(s: string, i: nat) returns (o: Outcome, j: nat)
    requires i <= |s| && '\0' !in s
    ensures Agrees(ParsePipe(Tokens(s[i..])), o, s, i, j)
    decreases |s| - i, 2
  {
    hide Tokens, ParseExec;
    o, j := ParseExecText(s, i);
    if o.Failed? {
      return;
    }
    var hit;
    hit, j := Peek(s, j, "|");
    Ahead(s, j);
    if hit {
      ghost var ts := Tokens(s[j..]);
      var tok, q, eq;
      tok, q, eq, j := GetToken(s, j);
      assert ts[1..] == Tokens(s[j..]);
      var right;
      right, j := ParsePipeText(s, j);
      if right.Failed? {
        return right, j;
      }
      o := Done(Pipe(o.cmd, right.cmd));
    }
  }

  /** parseline */
  method ParseLineText(s: string, i: nat) returns (o: Outcome, j: nat)
    requires i <= |s| && '\0' !in s
    ensures Agrees(ParseLine(Tokens(s[i..])), o, s, i, j)
    decreases |s| - i, 3
  {
    hide Tokens, ParsePipe;
    o, j := ParsePipeText(s, i);
    if o.Failed? {
      return;
    }
    var cmd := o.cmd;
    ghost var rest := Tokens(s[j..]);
    var hit;
    hit, j := Peek(s, j, "&");
    Ahead(s, j);
    while hit
      invariant i <= j <= |s| && (hit <==> Next(Tokens(s[j..]), '&'))
      invariant Backs(cmd, Tokens(s[j..])) == Backs(o.cmd, rest)
      decreases |s| - j
    {
      ghost var ts := Tokens(s[j..]);
      var tok, q, eq;
      tok, q, eq, j := GetToken(s, j);
      assert ts[1..] == Tokens(s[j..]);
      cmd := Back(cmd);
      hit, j := Peek(s, j, "&");
      Ahead(s, j);
    }
    hit, j := Peek(s, j, ";");
    Ahead(s, j);
    if hit {
      ghost var ts := Tokens(s[j..]);
      var tok, q, eq;
      tok, q, eq, j := GetToken(s, j);
      assert ts[1..] == Tokens(s[j..]);
      var right;
      right, j := ParseLineText(s, j);
      if right.Failed? {
        return right, j;
      }
      return Done(List(cmd, right.cmd)), j;
    }
    o := Done(cmd);
  }

  /** parsecmd: the tree of the whole line, or the error that stops the parser. */
  method ParseCmd(s: string) returns (o: Outcome)
    requires '\0' !in s
    ensures match ParseText(s)
      case Ok(cmd, _) => o == Done(cmd)
      case Err(e) => o == Failed(e)
  {
    hide Tokens, ParseLine;
    assert s[0..] == s;
    var j;
    o, j := ParseLineText(s, 0);
    if o.Failed? {
      return;
    }
    var hit;
    hit, j := Peek(s, j, "");
    Ahead(s, j);
    if j != |s| {
      return Failed(Leftovers);
    }
  }
}
