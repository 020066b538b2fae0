/**
  The language of the shell as a grammar: what a line may look like and which tree
  it stands for.  The parser (src/user/sh/main.c) accepts exactly the lines of the
  grammar and builds their trees.
 */
module ShellSyntax {
  import opened ShellGrammar
  import opened ShellParser

  // ------------------------------------------------------------ the grammar

  /** A word, or a redirection with its file. */
  datatype Item = Arg(w: string) | File(op: Token, file: string)

  /** A command is words and redirections in any order, or a line in brackets with
      redirections behind it. */
  datatype Command = Simple(items: seq<Item>) | Block(line: Line, files: seq<Item>)

  /** Commands between `|`. */
  datatype Pipeline = One(command: Command) | Through(command: Command, next: Pipeline)

  /** Pipelines, each with any number of `&` behind it, between `;`. */
  datatype Line = Last(pipeline: Pipeline, backs: nat) | Then(pipeline: Pipeline, backs: nat, next: Line)

  predicate GoodItem(x: Item) {
    x.File? ==> x.op == Sym('<') || x.op == Sym('>') || x.op == Append
  }

  predicate GoodItems(items: seq<Item>) {
    forall i :: 0 <= i < |items| ==> GoodItem(items[i])
  }

  predicate OnlyFiles(items: seq<Item>) {
    forall i :: 0 <= i < |items| ==> items[i].File?
  }

  function ArgsOf(items: seq<Item>): seq<string> {
    if items == [] then [] else (if items[0].Arg? then [items[0].w] else []) + ArgsOf(items[1..])
  }

  function RedirectOf(x: Item): Redirect
    requires x.File?
  {
    Redirect(x.file, if x.op == Sym('<') then In else Out)
  }

  function FilesOf(items: seq<Item>): seq<Redirect> {
    if items == [] then [] else (if items[0].File? then [RedirectOf(items[0])] else []) + FilesOf(items[1..])
  }

  /** A command has at most nine words. */
  predicate GoodCommand(c: Command) {
    match c
    case Simple(items) => GoodItems(items) && |ArgsOf(items)| <= 9
    case Block(line, files) => GoodLine(line) && GoodItems(files) && OnlyFiles(files)
  }

  predicate GoodPipeline(p: Pipeline) {
    GoodCommand(p.command) && (p.Through? ==> GoodPipeline(p.next))
  }

  predicate GoodLine(line: Line) {
    GoodPipeline(line.pipeline) && (line.Then? ==> GoodLine(line.next))
  }

  // -------------------------------------------------- tokens and trees

  function ItemTokens(x: Item): seq<Token> {
    match x
    case Arg(w) => [Word(w)]
    case File(op, file) => [op, Word(file)]
  }

  function ItemsTokens(items: seq<Item>): seq<Token> {
    if items == [] then [] else ItemTokens(items[0]) + ItemsTokens(items[1..])
  }

  function CommandTokens(c: Command): seq<Token> {
    match c
    case Simple(items) => ItemsTokens(items)
    case Block(line, files) => [Sym('(')] + LineTokens(line) + [Sym(')')] + ItemsTokens(files)
  }

  function PipelineTokens(p: Pipeline): seq<Token> {
    match p
    case One(c) => CommandTokens(c)
    case Through(c, next) => CommandTokens(c) + [Sym('|')] + PipelineTokens(next)
  }

  function Ampersands(n: nat): (r: seq<Token>)
    ensures |r| == n
  {
    seq(n, _ => Sym('&'))
  }

  function LineTokens(line: Line): seq<Token> {
    match line
    case Last(p, n) => PipelineTokens(p) + Ampersands(n)
    case Then(p, n, next) => PipelineTokens(p) + Ampersands(n) + [Sym(';')] + LineTokens(next)
  }

  function CommandTree(c: Command): Cmd {
    match c
    case Simple(items) => Wrap(Exec(ArgsOf(items)), FilesOf(items))
    case Block(line, files) => Wrap(LineTree(line), FilesOf(files))
  }

  function PipelineTree(p: Pipeline): Cmd {
    match p
    case One(c) => CommandTree(c)
    case Through(c, next) => Pipe(CommandTree(c), PipelineTree(next))
  }

  function Backed(c: Cmd, n: nat): Cmd
    decreases n
  {
    if n == 0 then c else Backed(Back(c), n - 1)
  }

  function LineTree(line: Line): Cmd {
    match line
    case Last(p, n) => Backed(PipelineTree(p), n)
    case Then(p, n, next) => List(Backed(PipelineTree(p), n), LineTree(next))
  }

  // --------------------------------------- every line of the grammar parses

  /** What may follow a command. */
  predicate Follows(k: seq<Token>) {
    k == [] || k[0] == Sym('|') || k[0] == Sym(')') || k[0] == Sym('&') || k[0] == Sym(';')
  }

  /** parseexec from a place where redirections may come. */
  function AfterWord(ts: seq<Token>, argv: seq<string>, list: seq<Redirect>): Parsed
    requires |argv| < MAXARGS
  {
    match ParseRedirs(ts, list)
    case BadRedirect => Err(MissingFile)
    case Redirects(more, rest) => Args(rest, argv, more)
  }

  lemma AtWord(ts: seq<Token>, argv: seq<string>, list: seq<Redirect>)
    requires |argv| + 1 < MAXARGS && ts != [] && ts[0].Word?
    ensures AfterWord(ts, argv, list) == AfterWord(ts[1..], argv + [ts[0].w], list)
  {
  }

  lemma AtFile(ts: seq<Token>, argv: seq<string>, list: seq<Redirect>)
    requires |argv| < MAXARGS && NextRedirect(ts) && |ts| >= 2 && ts[1].Word?
    ensures AfterWord(ts, argv, list) == AfterWord(ts[2..], argv, list + [RedirectOf(File(ts[0], ts[1].w))])
  {
  }

  lemma AtEnd(ts: seq<Token>, argv: seq<string>, list: seq<Redirect>)
    requires |argv| < MAXARGS && Follows(ts)
    ensures AfterWord(ts, argv, list) == Ok(Wrap(Exec(argv), list), ts)
  {
  }

  lemma Regroup<T>(a: seq<T>, x: T, b: seq<T>)
    ensures (a + [x]) + b == a + ([x] + b) && a + [] == a
  {
  }

  lemma NoItems()
    ensures ItemsTokens([]) == [] && ArgsOf([]) == [] && FilesOf([]) == []
  {
  }

  /** The tokens of an item come off the front. */
  lemma Shifted(x: Item, a: seq<Token>, k: seq<Token>)
    ensures var ts := ItemTokens(x) + a + k;
      && |ts| >= |ItemTokens(x)| > 0 && ts[0] == ItemTokens(x)[0] && ts[|ItemTokens(x)|..] == a + k
      && (x.File? ==> |ts| >= 2 && ts[1] == Word(x.file))
  {
  }

  lemma FirstItem(items: seq<Item>)
    requires items != []
    ensures var x, rest := items[0], items[1..];
      && ItemsTokens(items) == ItemTokens(x) + ItemsTokens(rest)
      && ArgsOf(items) == (if x.Arg? then [x.w] + ArgsOf(rest) else ArgsOf(rest))
      && FilesOf(items) == (if x.File? then [RedirectOf(x)] + FilesOf(rest) else FilesOf(rest))
  {
  }

  lemma {:induction false} ItemsParse(items: seq<Item>, k: seq<Token>, argv: seq<string>, list: seq<Redirect>)
    requires GoodItems(items) && Follows(k) && |argv| + |ArgsOf(items)| < MAXARGS
    ensures AfterWord(ItemsTokens(items) + k, argv, list)
         == Ok(Wrap(Exec(argv + ArgsOf(items)), list + FilesOf(items)), k)
    decreases |items|
  {
    hide AfterWord, Wrap, RedirectOf, ItemsTokens, ArgsOf, FilesOf;
    var ts := ItemsTokens(items) + k;
    NoItems();
    if items == [] {
      assert ts == k && argv + [] == argv && list + [] == list;
      AtEnd(k, argv, list);
    } else {
      var x, rest := items[0], items[1..];
      FirstItem(items);
      Shifted(x, ItemsTokens(rest), k);
      match x {
        case Arg(w) =>
          Regroup(argv, w, ArgsOf(rest));
          AtWord(ts, argv, list);
          ItemsParse(rest, k, argv + [w], list);
        case File(op, file) =>
          Regroup(list, RedirectOf(x), FilesOf(rest));
          AtFile(ts, argv, list);
          ItemsParse(rest, k, argv, list + [RedirectOf(x)]);
      }
    }
  }

  lemma {:induction false} FilesParse(files: seq<Item>, k: seq<Token>, list: seq<Redirect>)
    requires GoodItems(files) && OnlyFiles(files) && !NextRedirect(k)
    ensures ParseRedirs(ItemsTokens(files) + k, list) == Redirects(list + FilesOf(files), k)
    decreases |files|
  {
    var ts := ItemsTokens(files) + k;
    if files == [] {
      assert ts == k && list + FilesOf(files) == list;
    } else {
      var x, rest := files[0], files[1..];
      assert ts[0] == x.op && ts[1] == Word(x.file) && ts[2..] == ItemsTokens(rest) + k;
      FilesParse(rest, k, list + [RedirectOf(x)]);
      assert (list + [RedirectOf(x)]) + FilesOf(rest) == list + FilesOf(files);
    }
  }

  lemma {:induction false} CommandParses(c: Command, k: seq<Token>)
    requires GoodCommand(c) && Follows(k)
    ensures ParseExec(CommandTokens(c) + k) == Ok(CommandTree(c), k)
    decreases c
  {
    match c
    case Simple(items) =>
      ItemsParse(items, k, [], []);
      SimpleStarts(items, k);
      assert [] + ArgsOf(items) == ArgsOf(items) && [] + FilesOf(items) == FilesOf(items);
    case Block(line, files) =>
      var more := ItemsTokens(files) + k;
      LineParses(line, [Sym(')')] + more);
      FilesParse(files, k, []);
      BlockParses(line, files, k);
  }

  lemma SimpleStarts(items: seq<Item>, k: seq<Token>)
    requires GoodItems(items) && Follows(k)
    ensures !Next(ItemsTokens(items) + k, '(')
  {
    if items != [] {
      assert (ItemsTokens(items) + k)[0] == ItemTokens(items[0])[0];
    }
  }

  lemma BlockParses(line: Line, files: seq<Item>, k: seq<Token>)
    requires var more := ItemsTokens(files) + k;
      && ParseLine(LineTokens(line) + ([Sym(')')] + more)) == Ok(LineTree(line), [Sym(')')] + more)
      && ParseRedirs(more, []) == Redirects([] + FilesOf(files), k)
    ensures ParseExec(CommandTokens(Block(line, files)) + k) == Ok(CommandTree(Block(line, files)), k)
  {
    hide ParseLine, ParseRedirs, Args, LineTokens, LineTree, ItemsTokens, FilesOf, Wrap;
    var more := ItemsTokens(files) + k;
    var ts := CommandTokens(Block(line, files)) + k;
    assert Next(ts, '(') && ts[1..] == LineTokens(line) + ([Sym(')')] + more);
    assert ([Sym(')')] + more)[1..] == more;
    assert [] + FilesOf(files) == FilesOf(files);
  }

  lemma {:induction false} PipelineParses(p: Pipeline, k: seq<Token>)
    requires GoodPipeline(p) && Follows(k) && !Next(k, '|')
    ensures ParsePipe(PipelineTokens(p) + k) == Ok(PipelineTree(p), k)
    decreases p
  {
    hide ParseExec, ParsePipe, CommandTokens, CommandTree;
    match p
    case One(c) =>
      CommandParses(c, k);
      PipeFrom(CommandTokens(c) + k, CommandTree(c), k);
    case Through(c, next) =>
      var tail := [Sym('|')] + (PipelineTokens(next) + k);
      CommandParses(c, tail);
      PipelineParses(next, k);
      assert PipelineTokens(p) + k == CommandTokens(c) + tail;
      assert tail[1..] == PipelineTokens(next) + k;
      PipeFrom(CommandTokens(c) + tail, CommandTree(c), tail);
  }

  lemma PipeFrom(ts: seq<Token>, c: Cmd, rest: seq<Token>)
    requires ParseExec(ts) == Ok(c, rest)
    ensures !Next(rest, '|') ==> ParsePipe(ts) == Ok(c, rest)
    ensures Next(rest, '|') ==>
      var r := ParsePipe(rest[1..]); r.Ok? ==> ParsePipe(ts) == Ok(Pipe(c, r.cmd), r.rest)
  {
    hide ParseExec;
  }

  lemma {:induction false} BacksParse(c: Cmd, n: nat, k: seq<Token>)
    requires !Next(k, '&')
    ensures Backs(c, Ampersands(n) + k) == (Backed(c, n), k)
    decreases n
  {
    var ts := Ampersands(n) + k;
    if n == 0 {
      assert ts == k;
    } else {
      assert ts[0] == Sym('&') && ts[1..] == Ampersands(n - 1) + k;
      BacksParse(Back(c), n - 1, k);
    }
  }

  lemma BackedFollow(n: nat, k: seq<Token>)
    requires Follows(k) && !Next(k, '|')
    ensures Follows(Ampersands(n) + k) && !Next(Ampersands(n) + k, '|')
  {
    if n == 0 {
      assert Ampersands(n) + k == k;
    }
  }

  lemma {:induction false} LineParses(line: Line, k: seq<Token>)
    requires GoodLine(line) && Closes(k)
    ensures ParseLine(LineTokens(line) + k) == Ok(LineTree(line), k)
    decreases line
  {
    hide ParseLine, ParsePipe, Backs, LineTokens, PipelineTokens, PipelineTree, Ampersands, Backed;
    var p, n := line.pipeline, line.backs;
    var tail := if line.Last? then k else [Sym(';')] + (LineTokens(line.next) + k);
    BackedFollow(n, tail);
    PipelineParses(p, Ampersands(n) + tail);
    BacksParse(PipelineTree(p), n, tail);
    LineSpelled(line, k);
    if line.Then? {
      LineParses(line.next, k);
      assert tail[1..] == LineTokens(line.next) + k;
    }
    LineFrom(LineTokens(line) + k, PipelineTree(p), Ampersands(n) + tail, Backed(PipelineTree(p), n), tail);
  }

  lemma LineSpelled(line: Line, k: seq<Token>)
    ensures var tail := if line.Last? then k else [Sym(';')] + (LineTokens(line.next) + k);
      LineTokens(line) + k == PipelineTokens(line.pipeline) + (Ampersands(line.backs) + tail)
  {
    hide PipelineTokens, Ampersands;
  }

  lemma LineFrom(ts: seq<Token>, c: Cmd, rest: seq<Token>, b: Cmd, tail: seq<Token>)
    requires ParsePipe(ts) == Ok(c, rest) && Backs(c, rest) == (b, tail)
    ensures !Next(tail, ';') ==> ParseLine(ts) == Ok(b, tail)
    ensures Next(tail, ';') ==>
      var r := ParseLine(tail[1..]); r.Ok? ==> ParseLine(ts) == Ok(List(b, r.cmd), r.rest)
  {
    hide ParsePipe, Backs;
  }

  // --------------------------------- whatever parses is in the grammar

  lemma WhereItStands(ts: seq<Token>, argv: seq<string>, list: seq<Redirect>)
    requires |argv| < MAXARGS && AfterWord(ts, argv, list).Ok?
    ensures NextRedirect(ts) ==> |ts| >= 2 && ts[1].Word?
    ensures !NextRedirect(ts) && !Follows(ts) ==> ts[0].Word? && |argv| + 1 < MAXARGS
  {
  }

  lemma {:induction false} ItemsRead(ts: seq<Token>, argv: seq<string>, list: seq<Redirect>) returns (items: seq<Item>)
    requires |argv| < MAXARGS && AfterWord(ts, argv, list).Ok?
    ensures var r := AfterWord(ts, argv, list);
      && GoodItems(items) && |argv| + |ArgsOf(items)| < MAXARGS && ts == ItemsTokens(items) + r.rest
      && r.cmd == Wrap(Exec(argv + ArgsOf(items)), list + FilesOf(items))
    decreases |ts|
  {
    hide AfterWord, Wrap, RedirectOf, ItemsTokens, ArgsOf, FilesOf;
    WhereItStands(ts, argv, list);
    NoItems();
    if NextRedirect(ts) {
      var x := File(ts[0], ts[1].w);
      AtFile(ts, argv, list);
      var rest := ItemsRead(ts[2..], argv, list + [RedirectOf(x)]);
      items := [x] + rest;
      ItemBefore(x, rest, AfterWord(ts, argv, list).rest, ts);
      Regroup(list, RedirectOf(x), FilesOf(rest));
    } else if Follows(ts) {
      items := [];
      AtEnd(ts, argv, list);
      assert argv + [] == argv && list + [] == list && [] + ts == ts;
    } else {
      var x := Arg(ts[0].w);
      AtWord(ts, argv, list);
      var rest := ItemsRead(ts[1..], argv + [ts[0].w], list);
      items := [x] + rest;
      ItemBefore(x, rest, AfterWord(ts, argv, list).rest, ts);
      Regroup(argv, ts[0].w, ArgsOf(rest));
    }
  }

  lemma Parted(ts: seq<Token>, a: seq<Token>, b: seq<Token>, k: seq<Token>)
    requires |a| <= |ts| && ts[..|a|] == a && ts[|a|..] == b + k
    ensures ts == a + b + k
  {
    assert ts == ts[..|a|] + ts[|a|..];
  }

  lemma ItemBefore(x: Item, rest: seq<Item>, k: seq<Token>, ts: seq<Token>)
    requires GoodItem(x) && GoodItems(rest) && |ItemTokens(x)| <= |ts| && ts[..|ItemTokens(x)|] == ItemTokens(x)
    requires ts[|ItemTokens(x)|..] == ItemsTokens(rest) + k
    ensures var items := [x] + rest;
      && GoodItems(items) && ts == ItemsTokens(items) + k
      && ArgsOf(items) == (if x.Arg? then [x.w] + ArgsOf(rest) else ArgsOf(rest))
      && FilesOf(items) == (if x.File? then [RedirectOf(x)] + FilesOf(rest) else FilesOf(rest))
  {
    hide ItemsTokens, ArgsOf, FilesOf, RedirectOf, ItemTokens;
    var items := [x] + rest;
    FirstItem(items);
    assert items[1..] == rest;
    Parted(ts, ItemTokens(x), ItemsTokens(rest), k);
  }

  lemma {:induction false} FilesRead(ts: seq<Token>, list: seq<Redirect>) returns (files: seq<Item>)
    requires ParseRedirs(ts, list).Redirects?
    ensures var r := ParseRedirs(ts, list);
      && GoodItems(files) && OnlyFiles(files) && ts == ItemsTokens(files) + r.rest && r.list == list + FilesOf(files)
    decreases |ts|
  {
    hide ItemsTokens, FilesOf, RedirectOf;
    NoItems();
    if NextRedirect(ts) {
      var x := File(ts[0], ts[1].w);
      FileStep(ts, list);
      var rest := FilesRead(ts[2..], list + [RedirectOf(x)]);
      files := [x] + rest;
      ItemBefore(x, rest, ParseRedirs(ts, list).rest, ts);
      Regroup(list, RedirectOf(x), FilesOf(rest));
    } else {
      files := [];
      assert list + [] == list && [] + ts == ts;
    }
  }

  lemma FileStep(ts: seq<Token>, list: seq<Redirect>)
    requires NextRedirect(ts) && |ts| >= 2 && ts[1].Word?
    ensures ParseRedirs(ts, list) == ParseRedirs(ts[2..], list + [RedirectOf(File(ts[0], ts[1].w))])
  {
  }

  lemma {:induction false} CommandRead(ts: seq<Token>) returns (c: Command)
    requires ParseExec(ts).Ok?
    ensures var r := ParseExec(ts); GoodCommand(c) && ts == CommandTokens(c) + r.rest && r.cmd == CommandTree(c)
    decreases |ts|, 1
  {
    if Next(ts, '(') {
      var inner := ParseLine(ts[1..]);
      var line := LineRead(ts[1..]);
      var files := FilesRead(inner.rest[1..], []);
      c := Block(line, files);
      BlockRead(ts, line, files);
    } else {
      var items := ItemsRead(ts, [], []);
      c := Simple(items);
      assert [] + ArgsOf(items) == ArgsOf(items) && [] + FilesOf(items) == FilesOf(items);
    }
  }

  lemma InBrackets(ts: seq<Token>, a: seq<Token>, inner: seq<Token>, b: seq<Token>, k: seq<Token>)
    requires Next(ts, '(') && ts[1..] == a + inner && Next(inner, ')') && inner[1..] == b + k
    ensures ts == [Sym('(')] + a + [Sym(')')] + b + k
  {
    assert ts == [Sym('(')] + ts[1..] && inner == [Sym(')')] + inner[1..];
  }

  lemma BlockRead(ts: seq<Token>, line: Line, files: seq<Item>)
    requires Next(ts, '(') && ParseExec(ts).Ok?
    requires var r := ParseLine(ts[1..]);
      && r.Ok? && GoodLine(line) && ts[1..] == LineTokens(line) + r.rest && r.cmd == LineTree(line) && Next(r.rest, ')')
      && var d := ParseRedirs(r.rest[1..], []);
      && d.Redirects? && GoodItems(files) && OnlyFiles(files)
      && r.rest[1..] == ItemsTokens(files) + d.rest && d.list == [] + FilesOf(files)
    ensures var r := ParseExec(ts); var c := Block(line, files);
      GoodCommand(c) && ts == CommandTokens(c) + r.rest && r.cmd == CommandTree(c)
  {
    hide ParseLine, ParseRedirs, Args, LineTokens, LineTree, ItemsTokens, FilesOf, Wrap, GoodLine, GoodItems, OnlyFiles;
    var inner := ParseLine(ts[1..]).rest;
    assert [] + FilesOf(files) == FilesOf(files);
    InBrackets(ts, LineTokens(line), inner, ItemsTokens(files), ParseRedirs(inner[1..], []).rest);
  }

  lemma {:induction false} PipelineRead(ts: seq<Token>) returns (p: Pipeline)
    requires ParsePipe(ts).Ok?
    ensures var r := ParsePipe(ts); GoodPipeline(p) && ts == PipelineTokens(p) + r.rest && r.cmd == PipelineTree(p)
    decreases |ts|, 2
  {
    hide ParseExec;
    var first := ParseExec(ts);
    var c := CommandRead(ts);
    if Next(first.rest, '|') {
      var next := PipelineRead(first.rest[1..]);
      p := Through(c, next);
      assert first.rest == [Sym('|')] + first.rest[1..];
      assert ts == CommandTokens(c) + [Sym('|')] + PipelineTokens(next) + ParsePipe(ts).rest;
    } else {
      p := One(c);
    }
  }

  lemma {:induction false} BacksRead(c: Cmd, ts: seq<Token>) returns (n: nat)
    ensures var b := Backs(c, ts); ts == Ampersands(n) + b.1 && b.0 == Backed(c, n)
    decreases |ts|
  {
    if Next(ts, '&') {
      var m := BacksRead(Back(c), ts[1..]);
      n := m + 1;
      assert ts == [Sym('&')] + ts[1..];
    } else {
      n := 0;
    }
  }

  lemma {:induction false} LineRead(ts: seq<Token>) returns (line: Line)
    requires ParseLine(ts).Ok?
    ensures var r := ParseLine(ts); GoodLine(line) && ts == LineTokens(line) + r.rest && r.cmd == LineTree(line)
    decreases |ts|, 3
  {
    hide ParsePipe, Backs;
    var first := ParsePipe(ts);
    var p := PipelineRead(ts);
    var n := BacksRead(first.cmd, first.rest);
    var b := Backs(first.cmd, first.rest);
    if Next(b.1, ';') {
      var next := LineRead(b.1[1..]);
      line := Then(p, n, next);
      assert b.1 == [Sym(';')] + b.1[1..];
      assert ts == PipelineTokens(p) + Ampersands(n) + [Sym(';')] + LineTokens(next) + ParseLine(ts).rest;
    } else {
      line := Last(p, n);
      assert ts == PipelineTokens(p) + Ampersands(n) + b.1;
    }
  }

  /** The parser accepts exactly the lines of the grammar, with their trees. */
  lemma ParserIsGrammar(ts: seq<Token>, t: Cmd)
    ensures ParseTokens(ts) == Ok(t, []) <==>
      exists line :: GoodLine(line) && LineTokens(line) == ts && LineTree(line) == t
  {
    hide ParseLine;
    if ParseTokens(ts) == Ok(t, []) {
      var line := LineRead(ts);
      assert LineTokens(line) + [] == LineTokens(line);
    }
    if exists line :: GoodLine(line) && LineTokens(line) == ts && LineTree(line) == t {
      var line :| GoodLine(line) && LineTokens(line) == ts && LineTree(line) == t;
      LineParses(line, []);
      assert LineTokens(line) + [] == LineTokens(line);
    }
  }

  // -------------------------------------- rendering without needless brackets

  function ArgItems(argv: seq<string>): seq<Item> {
    seq(|argv|, i requires 0 <= i < |argv| => Arg(argv[i]))
  }

  function FileItem(file: string, dir: Dir): Item {
    File(Sym(if dir == In then '<' else '>'), file)
  }

  function WithFile(c: Command, x: Item): Command {
    match c
    case Simple(items) => Simple(items + [x])
    case Block(line, files) => Block(line, files + [x])
  }

  /** A tree as a command: bare when it is words with redirections. */
  function BareCommand(t: Cmd): Command
    decreases t, if t.Pipe? then 3 else if t.List? then 1 else if t.Back? then 2 else 0
  {
    match t
    case Exec(argv) => Simple(ArgItems(argv))
    case Redir(c, file, dir) => WithFile(BareCommand(c), FileItem(file, dir))
    case _ => Block(BareLine(t), [])
  }

  /** A tree as a pipeline: the left side of a pipe is a command and the right side a
      pipeline. */
  function BarePipeline(t: Cmd): Pipeline
    decreases t, if t.Pipe? then 0 else if t.List? then 2 else if t.Back? then 3 else 1
  {
    match t
    case Pipe(l, r) => Through(BareCommand(l), BarePipeline(r))
    case _ => One(BareCommand(t))
  }

  /** A tree as a pipeline with `&` behind it. */
  function BareBacked(t: Cmd): (Pipeline, nat)
    decreases t, if t.Pipe? then 1 else if t.List? then 3 else if t.Back? then 0 else 2
  {
    match t
    case Back(c) => var b := BareBacked(c); (b.0, b.1 + 1)
    case _ => (BarePipeline(t), 0)
  }

  /** A tree as a line: the left side of a list is a pipeline with `&` behind it and the
      right side a line. */
  function BareLine(t: Cmd): Line
    decreases t, if t.Pipe? then 2 else if t.List? then 0 else if t.Back? then 1 else 3
  {
    match t
    case List(l, r) => var b := BareBacked(l); Then(b.0, b.1, BareLine(r))
    case _ => var b := BareBacked(t); Last(b.0, b.1)
  }

  lemma {:induction false} ArgItemsAre(argv: seq<string>)
    ensures ArgsOf(ArgItems(argv)) == argv && FilesOf(ArgItems(argv)) == [] && GoodItems(ArgItems(argv))
  {
    if argv != [] {
      ArgItemsAre(argv[1..]);
      assert ArgItems(argv)[1..] == ArgItems(argv[1..]);
    }
  }

  lemma {:induction false} OneMoreFile(items: seq<Item>, x: Item)
    requires x.File?
    ensures ArgsOf(items + [x]) == ArgsOf(items) && FilesOf(items + [x]) == FilesOf(items) + [RedirectOf(x)]
  {
    if items == [] {
      assert items + [x] == [x];
    } else {
      assert (items + [x])[1..] == items[1..] + [x];
      OneMoreFile(items[1..], x);
    }
  }

  lemma WrapLast(c: Cmd, list: seq<Redirect>, r: Redirect)
    ensures Wrap(c, list + [r]) == Redir(Wrap(c, list), r.file, r.dir)
  {
    assert (list + [r])[..|list|] == list;
  }

  lemma WithFileIs(c: Command, file: string, dir: Dir)
    requires GoodCommand(c)
    ensures var c' := WithFile(c, FileItem(file, dir));
      GoodCommand(c') && CommandTree(c') == Redir(CommandTree(c), file, dir)
  {
    hide Wrap, ArgsOf, FilesOf;
    var x := FileItem(file, dir);
    var items := if c.Simple? then c.items else c.files;
    OneMoreFile(items, x);
    WrapLast(if c.Simple? then Exec(ArgsOf(items)) else LineTree(c.line), FilesOf(items), RedirectOf(x));
  }

  lemma {:induction false} BackedMore(c: Cmd, n: nat)
    ensures Backed(c, n + 1) == Back(Backed(c, n))
    decreases n
  {
    if n > 0 {
      BackedMore(Back(c), n - 1);
    }
  }

  lemma {:induction false} BareCommandIs(t: Cmd)
    requires WellFormed(t)
    ensures GoodCommand(BareCommand(t)) && CommandTree(BareCommand(t)) == t
    decreases t, if t.Pipe? then 3 else if t.List? then 1 else if t.Back? then 2 else 0
  {
    match t
    case Exec(argv) =>
      ArgItemsAre(argv);
      assert Wrap(t, []) == t;
    case Redir(c, file, dir) =>
      BareCommandIs(c);
      WithFileIs(BareCommand(c), file, dir);
    case _ =>
      BareLineIs(t);
      assert Wrap(t, []) == t;
  }

  lemma {:induction false} BarePipelineIs(t: Cmd)
    requires WellFormed(t)
    ensures GoodPipeline(BarePipeline(t)) && PipelineTree(BarePipeline(t)) == t
    decreases t, if t.Pipe? then 0 else if t.List? then 2 else if t.Back? then 3 else 1
  {
    match t
    case Pipe(l, r) =>
      BareCommandIs(l);
      BarePipelineIs(r);
    case _ =>
      BareCommandIs(t);
  }

  lemma {:induction false} BareBackedIs(t: Cmd)
    requires WellFormed(t)
    ensures var b := BareBacked(t); GoodPipeline(b.0) && Backed(PipelineTree(b.0), b.1) == t
    decreases t, if t.Pipe? then 1 else if t.List? then 3 else if t.Back? then 0 else 2
  {
    match t
    case Back(c) =>
      BareBackedIs(c);
      BackedMore(PipelineTree(BareBacked(c).0), BareBacked(c).1);
    case _ =>
      BarePipelineIs(t);
  }

  lemma {:induction false} BareLineIs(t: Cmd)
    requires WellFormed(t)
    ensures GoodLine(BareLine(t)) && LineTree(BareLine(t)) == t
    decreases t, if t.Pipe? then 2 else if t.List? then 0 else if t.Back? then 1 else 3
  {
    match t
    case List(l, r) =>
      BareBackedIs(l);
      BareLineIs(r);
    case _ =>
      BareBackedIs(t);
  }

  // -------------------------------------------------- the number of brackets

  function CommandBrackets(c: Command): nat {
    match c
    case Simple(_) => 0
    case Block(line, _) => 1 + LineBrackets(line)
  }

  function PipelineBrackets(p: Pipeline): nat {
    CommandBrackets(p.command) + if p.Through? then PipelineBrackets(p.next) else 0
  }

  function LineBrackets(line: Line): nat {
    PipelineBrackets(line.pipeline) + if line.Then? then LineBrackets(line.next) else 0
  }

  /** A form further inside takes no fewer brackets, and at most one more. */
  lemma BareOrder(t: Cmd)
    ensures LineBrackets(BareLine(t)) <= PipelineBrackets(BareBacked(t).0)
    ensures PipelineBrackets(BareBacked(t).0) <= PipelineBrackets(BarePipeline(t))
    ensures PipelineBrackets(BarePipeline(t)) <= CommandBrackets(BareCommand(t))
    ensures !t.Exec? && !t.Redir? ==> CommandBrackets(BareCommand(t)) == 1 + LineBrackets(BareLine(t))
    ensures t.Exec? || t.Redir? ==> LineBrackets(BareLine(t)) == CommandBrackets(BareCommand(t))
  {
    match t
    case Exec(_) =>
    case Redir(_, _, _) =>
    case Pipe(_, _) =>
    case List(_, _) =>
    case Back(_) =>
  }

  lemma {:induction false} WrapBrackets(t: Cmd, list: seq<Redirect>)
    ensures CommandBrackets(BareCommand(Wrap(t, list))) == CommandBrackets(BareCommand(t))
    decreases |list|
  {
    if list != [] {
      WrapBrackets(t, list[..|list| - 1]);
    }
  }

  lemma {:induction false} BackedBrackets(t: Cmd, n: nat)
    ensures BareBacked(Backed(t, n)).0 == BareBacked(t).0
    decreases n
  {
    if n > 0 {
      BackedBrackets(Back(t), n - 1);
    }
  }

  lemma {:induction false} FewestInCommand(c: Command)
    ensures CommandBrackets(BareCommand(CommandTree(c))) <= CommandBrackets(c)
    decreases c
  {
    match c
    case Simple(items) =>
      WrapBrackets(Exec(ArgsOf(items)), FilesOf(items));
    case Block(line, files) =>
      WrapBrackets(LineTree(line), FilesOf(files));
      BareOrder(LineTree(line));
      FewestBrackets(line);
  }

  lemma {:induction false} FewestInPipeline(p: Pipeline)
    ensures PipelineBrackets(BarePipeline(PipelineTree(p))) <= PipelineBrackets(p)
    decreases p
  {
    hide CommandTree, BareCommand;
    FewestInCommand(p.command);
    BareOrder(PipelineTree(p));
    if p.Through? {
      FewestInPipeline(p.next);
    }
  }

  /** No line with this tree has fewer brackets. */
  lemma {:induction false} FewestBrackets(line: Line)
    ensures LineBrackets(BareLine(LineTree(line))) <= LineBrackets(line)
    decreases line
  {
    hide PipelineTree, BarePipeline, BareBacked, Backed;
    var x := PipelineTree(line.pipeline);
    FewestInPipeline(line.pipeline);
    BareOrder(x);
    BackedBrackets(x, line.backs);
    BareOrder(Backed(x, line.backs));
    if line.Then? {
      FewestBrackets(line.next);
      ListBrackets(Backed(x, line.backs), LineTree(line.next));
    }
  }

  lemma ListBrackets(l: Cmd, r: Cmd)
    ensures LineBrackets(BareLine(List(l, r))) == PipelineBrackets(BareBacked(l).0) + LineBrackets(BareLine(r))
  {
  }

  // ------------------------------------------------------------------- text

  ghost predicate Legal(ts: seq<Token>) {
    forall i :: 0 <= i < |ts| ==> LegalToken(ts[i])
  }

  lemma LegalConcat(a: seq<Token>, b: seq<Token>)
    requires Legal(a) && Legal(b)
    ensures Legal(a + b)
  {
  }

  lemma {:induction false} LegalItems(items: seq<Item>)
    requires GoodItems(items)
    requires forall i :: 0 <= i < |items| ==> IsWord(if items[i].Arg? then items[i].w else items[i].file)
    ensures Legal(ItemsTokens(items))
  {
    hide LegalToken, IsWord;
    if items != [] {
      LegalItem(items[0]);
      LegalItems(items[1..]);
      LegalConcat(ItemTokens(items[0]), ItemsTokens(items[1..]));
    }
  }

  lemma LegalItem(x: Item)
    requires GoodItem(x) && IsWord(if x.Arg? then x.w else x.file)
    ensures Legal(ItemTokens(x))
  {
  }

  lemma {:induction false} LegalFiles(items: seq<Item>, x: Item)
    requires Legal(ItemsTokens(items)) && GoodItem(x) && x.File? && IsWord(x.file)
    ensures Legal(ItemsTokens(items + [x]))
  {
    hide LegalToken, IsWord;
    if items == [] {
      assert items + [x] == [x];
      LegalItem(x);
      assert ItemsTokens([x]) == ItemTokens(x) + ItemsTokens([]);
    } else {
      assert (items + [x])[1..] == items[1..] + [x];
      LegalParts(ItemTokens(items[0]), ItemsTokens(items[1..]));
      LegalFiles(items[1..], x);
      LegalConcat(ItemTokens(items[0]), ItemsTokens(items[1..] + [x]));
    }
  }

  lemma LegalParts(a: seq<Token>, b: seq<Token>)
    requires Legal(a + b)
    ensures Legal(a) && Legal(b)
  {
    forall i | 0 <= i < |a| ensures LegalToken(a[i]) {
      assert (a + b)[i] == a[i];
    }
    forall i | 0 <= i < |b| ensures LegalToken(b[i]) {
      assert (a + b)[|a| + i] == b[i];
    }
  }

  lemma {:induction false} LegalCommand(t: Cmd)
    requires WellFormed(t)
    ensures Legal(CommandTokens(BareCommand(t)))
    decreases t, if t.Pipe? then 3 else if t.List? then 1 else if t.Back? then 2 else 0
  {
    match t
    case Exec(argv) =>
      LegalItems(ArgItems(argv));
    case Redir(c, file, dir) =>
      LegalCommand(c);
      LegalWithFile(BareCommand(c), FileItem(file, dir));
    case _ =>
      LegalLine(t);
      assert ItemsTokens([]) == [];
  }

  lemma LegalWithFile(c: Command, x: Item)
    requires Legal(CommandTokens(c)) && GoodItem(x) && x.File? && IsWord(x.file)
    ensures Legal(CommandTokens(WithFile(c, x)))
  {
    hide LegalToken, IsWord, ItemsTokens, LineTokens;
    match c
    case Simple(items) => LegalFiles(items, x);
    case Block(line, files) =>
      var front := [Sym('(')] + LineTokens(line) + [Sym(')')];
      LegalParts(front, ItemsTokens(files));
      LegalFiles(files, x);
      LegalConcat(front, ItemsTokens(files + [x]));
  }

  lemma {:induction false} LegalPipeline(t: Cmd)
    requires WellFormed(t)
    ensures Legal(PipelineTokens(BarePipeline(t)))
    decreases t, if t.Pipe? then 0 else if t.List? then 2 else if t.Back? then 3 else 1
  {
    match t
    case Pipe(l, r) =>
      LegalCommand(l);
      LegalPipeline(r);
    case _ =>
      LegalCommand(t);
  }

  lemma {:induction false} LegalBacked(t: Cmd)
    requires WellFormed(t)
    ensures Legal(PipelineTokens(BareBacked(t).0))
    decreases t, if t.Pipe? then 1 else if t.List? then 3 else if t.Back? then 0 else 2
  {
    match t
    case Back(c) => LegalBacked(c);
    case _ => LegalPipeline(t);
  }

  lemma {:induction false} LegalLine(t: Cmd)
    requires WellFormed(t)
    ensures Legal(LineTokens(BareLine(t)))
    decreases t, if t.Pipe? then 2 else if t.List? then 0 else if t.Back? then 1 else 3
  {
    match t
    case List(l, r) =>
      LegalBacked(l);
      LegalLine(r);
    case _ =>
      LegalBacked(t);
  }

  /** A text parses to a tree exactly when its tokens are a line with that tree. */
  lemma TextIsGrammar(s: string, t: Cmd)
    ensures ParseText(s) == Ok(t, []) <==>
      exists line :: GoodLine(line) && LineTokens(line) == Tokens(s) && LineTree(line) == t
  {
    ParserIsGrammar(Tokens(s), t);
  }

  /** Parsing the text of a tree, with brackets only where they are needed, gives the
      tree back. */
  lemma BareRoundTrip(t: Cmd)
    requires WellFormed(t)
    ensures ParseText(Text(LineTokens(BareLine(t)))) == Ok(t, [])
  {
    hide ParseTokens, LineTokens, LineTree, BareLine;
    var line := BareLine(t);
    BareLineIs(t);
    LegalLine(t);
    ScanText(LineTokens(line));
    ParserIsGrammar(LineTokens(line), t);
  }

  lemma OneWord(w: string)
    ensures var c := Simple([Arg(w)]);
      GoodCommand(c) && CommandTokens(c) == [Word(w)] && CommandTree(c) == Exec([w])
  {
    var items := [Arg(w)];
    assert items[1..] == [];
    assert ItemsTokens(items) == ItemTokens(Arg(w)) + ItemsTokens([]);
    assert ArgsOf(items) == [w] + ArgsOf([]) && FilesOf(items) == [] + FilesOf([]);
    assert Wrap(Exec([w]), []) == Exec([w]);
  }

  lemma PipeTokens(a: string, b: string)
    ensures ParseTokens([Word(a), Sym('|'), Word(b)]) == Ok(Pipe(Exec([a]), Exec([b])), [])
  {
    hide ParseTokens, CommandTokens, CommandTree, GoodCommand;
    var l, r := Simple([Arg(a)]), Simple([Arg(b)]);
    OneWord(a);
    OneWord(b);
    var p := Through(l, One(r));
    var line := Last(p, 0);
    assert PipelineTokens(One(r)) == [Word(b)] && PipelineTree(One(r)) == Exec([b]) && GoodPipeline(One(r));
    assert PipelineTokens(p) == [Word(a)] + [Sym('|')] + [Word(b)] && PipelineTree(p) == Pipe(Exec([a]), Exec([b]));
    assert LineTokens(line) == [Word(a)] + [Sym('|')] + [Word(b)] + Ampersands(0);
    assert LineTokens(line) == [Word(a), Sym('|'), Word(b)];
    ParserIsGrammar([Word(a), Sym('|'), Word(b)], LineTree(line));
  }

  /** Two commands with a pipe between them. */
  lemma PipeOfTwo()
    ensures ParseText("ls | cat ") == Ok(Pipe(Exec(["ls"]), Exec(["cat"])), [])
  {
    hide ParseTokens, Text, Tokens;
    var ts := [Word("ls"), Sym('|'), Word("cat")];
    TextOfThree(ts[0], ts[1], ts[2]);
    assert TokenText(ts[0]) + TokenText(ts[1]) + TokenText(ts[2]) == "ls | cat ";
    ScanText(ts);
    PipeTokens("ls", "cat");
  }
}
