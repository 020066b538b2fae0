/**
  How a text spells tokens (gettoken in src/user/sh/main.c): with any space between
  them, and some where two of them would otherwise run together.
 */
module ShellText {
  import opened ShellGrammar
  import opened ShellParser

  function Spelled(t: Token): (s: string)
    ensures !t.Word? ==> s != []
  {
    match t
    case Sym(c) => [c]
    case Append => ">>"
    case Word(w) => w
  }

  predicate Space(g: string) {
    forall i :: 0 <= i < |g| ==> IsSpace(g[i])
  }

  /** Two words, or `>` and something that begins with `>`. */
  predicate RunTogether(a: Token, b: Token) {
    (a.Word? && b.Word?) || (a == Sym('>') && (b == Sym('>') || b == Append))
  }

  /** `gaps[i]` is the space before token `i`, and the last gap is that at the end. */
  predicate GoodGaps(ts: seq<Token>, gaps: seq<string>) {
    && |gaps| == |ts| + 1 && (forall i :: 0 <= i < |gaps| ==> Space(gaps[i]))
    && forall i :: 0 < i < |ts| && RunTogether(ts[i - 1], ts[i]) ==> gaps[i] != []
  }

  function Laid(ts: seq<Token>, gaps: seq<string>): string
    requires |gaps| == |ts| + 1
  {
    if ts == [] then gaps[0] else gaps[0] + Spelled(ts[0]) + Laid(ts[1..], gaps[1..])
  }

  ghost predicate AllLegal(ts: seq<Token>) {
    forall i :: 0 <= i < |ts| ==> LegalToken(ts[i])
  }

  // -------------------------------------------- a spelled text scans back

  lemma {:induction false} SpaceSkipped(g: string, s: string)
    requires Space(g)
    ensures Tokens(g + s) == Tokens(s)
  {
    if g == [] {
      assert g + s == s;
    } else {
      assert (g + s)[1..] == g[1..] + s;
      SpaceSkipped(g[1..], s);
    }
  }

  lemma {:induction false} WordThenOther(w: string, s: string)
    requires (forall i :: 0 <= i < |w| ==> IsWordChar(w[i])) && (s == [] || !IsWordChar(s[0]))
    ensures WordLength(w + s) == |w|
  {
    if w == [] {
      assert w + s == s;
    } else {
      assert (w + s)[1..] == w[1..] + s;
      WordThenOther(w[1..], s);
    }
  }

  /** What must not follow a token directly. */
  predicate MayFollow(t: Token, s: string) {
    && (t.Word? && s != [] ==> !IsWordChar(s[0]))
    && (t == Sym('>') && s != [] ==> s[0] != '>')
  }

  lemma OneSpelled(t: Token, s: string)
    requires LegalToken(t) && MayFollow(t, s)
    ensures Tokens(Spelled(t) + s) == [t] + Tokens(s)
  {
    var r := Spelled(t) + s;
    match t
    case Sym(c) =>
      assert r[0] == c && r[1..] == s;
    case Append =>
      assert r[0] == '>' && r[1] == '>' && r[2..] == s;
    case Word(w) =>
      WordThenOther(w, s);
      assert r[0] == w[0] && r[..|w|] == w && r[|w|..] == s;
  }

  lemma LaidStarts(ts: seq<Token>, gaps: seq<string>, t: Token)
    requires AllLegal(ts) && |gaps| == |ts| + 1 && Space(gaps[0])
    requires ts != [] && RunTogether(t, ts[0]) ==> gaps[0] != []
    ensures MayFollow(t, Laid(ts, gaps))
  {
    var s := Laid(ts, gaps);
    if gaps[0] != [] {
      assert s[0] == gaps[0][0];
    } else if ts != [] {
      assert LegalToken(ts[0]);
      assert s[0] == Spelled(ts[0])[0];
    }
  }

  lemma {:induction false} LaidScans(ts: seq<Token>, gaps: seq<string>)
    requires AllLegal(ts) && GoodGaps(ts, gaps)
    ensures Tokens(Laid(ts, gaps)) == ts
  {
    hide Tokens, Spelled, LegalToken;
    if ts == [] {
      SpaceSkipped(gaps[0], []);
      assert gaps[0] + [] == gaps[0];
      NoTokens();
    } else {
      var rest := Laid(ts[1..], gaps[1..]);
      TailGaps(ts, gaps);
      LaidScans(ts[1..], gaps[1..]);
      LaidStarts(ts[1..], gaps[1..], ts[0]);
      OneSpelled(ts[0], rest);
      SpaceSkipped(gaps[0], Spelled(ts[0]) + rest);
      assert gaps[0] + (Spelled(ts[0]) + rest) == Laid(ts, gaps);
    }
  }

  lemma NoTokens()
    ensures Tokens([]) == []
  {
  }

  lemma TailGaps(ts: seq<Token>, gaps: seq<string>)
    requires AllLegal(ts) && GoodGaps(ts, gaps) && ts != []
    ensures AllLegal(ts[1..]) && GoodGaps(ts[1..], gaps[1..])
    ensures |ts| > 1 && RunTogether(ts[0], ts[1]) ==> gaps[1] != []
  {
    hide LegalToken, Space, RunTogether;
    var us, hs := ts[1..], gaps[1..];
    forall i | 0 < i < |us| && RunTogether(us[i - 1], us[i]) ensures hs[i] != [] {
      assert us[i - 1] == ts[i] && us[i] == ts[i + 1];
    }
  }

  // ------------------------------------------------ every text is spelled

  /** The gaps of a text. */
  lemma {:induction false} GapsOf(s: string) returns (gaps: seq<string>)
    ensures AllLegal(Tokens(s)) && GoodGaps(Tokens(s), gaps) && Laid(Tokens(s), gaps) == s
    ensures gaps[0] == [] ==> s == [] || !IsSpace(s[0])
    decreases |s|
  {
    hide LegalToken, Spelled;
    if s == [] {
      gaps := [[]];
    } else if IsSpace(s[0]) {
      var more := GapsOf(s[1..]);
      gaps := [[s[0]] + more[0]] + more[1..];
      WiderGap(Tokens(s[1..]), more, s[0]);
      assert s == [s[0]] + s[1..];
    } else {
      var n := FirstToken(s);
      var more := GapsOf(s[n..]);
      gaps := [[]] + more;
      BeforeToken(s, n, more);
    }
  }

  lemma WiderGap(ts: seq<Token>, gaps: seq<string>, c: char)
    requires GoodGaps(ts, gaps) && IsSpace(c)
    ensures var wider := [[c] + gaps[0]] + gaps[1..]; GoodGaps(ts, wider) && Laid(ts, wider) == [c] + Laid(ts, gaps)
  {
    hide Spelled;
    var wider := [[c] + gaps[0]] + gaps[1..];
    assert wider[1..] == gaps[1..];
    if ts != [] {
      assert Laid(ts, wider) == ([c] + gaps[0]) + Spelled(ts[0]) + Laid(ts[1..], gaps[1..]);
    }
  }

  /** The length of the first token, which the rest of the text does not lengthen. */
  lemma FirstToken(s: string) returns (n: nat)
    requires s != [] && !IsSpace(s[0])
    ensures 0 < n <= |s| && Tokens(s) != [] && LegalToken(Tokens(s)[0]) && Spelled(Tokens(s)[0]) == s[..n]
    ensures Tokens(s)[1..] == Tokens(s[n..]) && MayFollow(Tokens(s)[0], s[n..])
  {
    if s[0] == '>' && |s| > 1 && s[1] == '>' {
      n := 2;
    } else if IsSymbol(s[0]) {
      n := 1;
    } else {
      n := WordLength(s);
    }
    assert Tokens(s) == [Tokens(s)[0]] + Tokens(s[n..]);
  }

  lemma BeforeToken(s: string, n: nat, gaps: seq<string>)
    requires s != [] && !IsSpace(s[0]) && 0 < n <= |s| && Tokens(s) != [] && LegalToken(Tokens(s)[0])
    requires Spelled(Tokens(s)[0]) == s[..n] && Tokens(s)[1..] == Tokens(s[n..]) && MayFollow(Tokens(s)[0], s[n..])
    requires AllLegal(Tokens(s[n..])) && GoodGaps(Tokens(s[n..]), gaps) && Laid(Tokens(s[n..]), gaps) == s[n..]
    ensures AllLegal(Tokens(s)) && GoodGaps(Tokens(s), [[]] + gaps) && Laid(Tokens(s), [[]] + gaps) == s
  {
    hide Tokens, LegalToken, Spelled, Space;
    var ts, us, more := Tokens(s), Tokens(s[n..]), [[]] + gaps;
    assert ts == [ts[0]] + us;
    assert more[1..] == gaps;
    NoSpace();
    if us != [] && RunTogether(ts[0], us[0]) {
      GapBetween(ts[0], us, gaps, s[n..]);
    }
    forall i | 0 < i < |ts| && RunTogether(ts[i - 1], ts[i]) ensures more[i] != [] {
      if i > 1 {
        assert us[i - 2] == ts[i - 1] && us[i - 1] == ts[i];
      }
    }
    assert s == [] + s[..n] + s[n..];
  }

  lemma NoSpace()
    ensures Space([])
  {
  }

  lemma GapBetween(t: Token, us: seq<Token>, gaps: seq<string>, s: string)
    requires us != [] && LegalToken(us[0]) && RunTogether(t, us[0]) && MayFollow(t, s)
    requires |gaps| == |us| + 1 && Laid(us, gaps) == s
    ensures gaps[0] != []
  {
    var rest := Spelled(us[0]) + Laid(us[1..], gaps[1..]);
    assert s == gaps[0] + rest;
    assert rest[0] == Spelled(us[0])[0];
  }

  /** A text scans to tokens exactly when it spells them. */
  lemma ScansIffSpelled(s: string, ts: seq<Token>)
    ensures Tokens(s) == ts <==> AllLegal(ts) && exists gaps :: GoodGaps(ts, gaps) && Laid(ts, gaps) == s
  {
    hide Tokens, Laid, AllLegal, Space, RunTogether;
    if Tokens(s) == ts {
      var gaps := GapsOf(s);
    }
    if AllLegal(ts) && exists gaps :: GoodGaps(ts, gaps) && Laid(ts, gaps) == s {
      var gaps :| GoodGaps(ts, gaps) && Laid(ts, gaps) == s;
      LaidScans(ts, gaps);
    }
  }
}
