/**
  The console line discipline (console_intr and console_read in
  src/core/console.c): a ring of 128 characters with a read, a write and an edit
  index.
 */
module Console {
  const INPUT_BUF := 128
  const NEWLINE := 10
  const RETURN := 13
  const CTRL_D := 4
  const CTRL_H := 8
  const CTRL_P := 16
  const CTRL_U := 21
  const RUBOUT := 0x7f
  const NO_CHAR := 0xff

  /** What a stream carries besides the end-of-file marks. */
  function Payload(s: seq<int>): seq<int> {
    if s == [] then []
    else Payload(s[..|s| - 1]) + if s[|s| - 1] == CTRL_D then [] else [s[|s| - 1]]
  }

  lemma PayloadMore(s: seq<int>, k: nat)
    requires k < |s|
    ensures Payload(s[..k + 1]) == Payload(s[..k]) + if s[k] == CTRL_D then [] else [s[k]]
  {
    assert s[..k + 1][..k] == s[..k];
  }

  // ---------------------------------------------------------- the line

  /** The character that is stored for a typed one. */
  function Stored(c: int): int {
    if c == RETURN then NEWLINE else c
  }

  predicate IsEdit(c: int) {
    c == CTRL_P || c == CTRL_U || c == CTRL_H || c == RUBOUT
  }

  /** The line being edited, `used` of the 128 places taken, after a character. */
  function Edited(line: seq<int>, c: int, used: nat): seq<int> {
    if c == CTRL_P then line
    else if c == CTRL_U then []
    else if c == CTRL_H || c == RUBOUT then (if line == [] then [] else line[..|line| - 1])
    else if c == 0 || used >= INPUT_BUF then line
    else line + [Stored(c)]
  }

  /** The character completes the line. */
  predicate Commits(c: int, used: nat) {
    && !IsEdit(c) && c != 0 && used < INPUT_BUF
    && (Stored(c) == NEWLINE || c == CTRL_D || used + 1 == INPUT_BUF)
  }

  /** The whole effect of one character on the committed stream and the line. */
  function Typed(committed: seq<int>, line: seq<int>, c: int, used: nat): (r: (seq<int>, seq<int>))
    ensures committed <= r.0
  {
    if Commits(c, used) then (committed + Edited(line, c, used), []) else (committed, Edited(line, c, used))
  }

  // ---------------------------------------------------------- one read

  /** What a read of at most `n` characters takes from the committed characters
      `s` before it returns or sleeps: the characters, how many places it moves on,
      and whether it sleeps.  `began` says that the read already has a character. */
  datatype Taken = Taken(text: seq<int>, moved: nat, sleeps: bool)

  function Take(s: seq<int>, n: nat, began: bool): (t: Taken)
    ensures t.moved <= |s| && |t.text| <= n
    decreases |s|
  {
    if n == 0 then Taken([], 0, false)
    else if s == [] then Taken([], 0, true)
    else if s[0] == CTRL_D then Taken([], if began then 0 else 1, false)
    else if s[0] == NEWLINE then Taken([NEWLINE], 1, false)
    else
      var t := Take(s[1..], n - 1, true);
      Taken([s[0]] + t.text, t.moved + 1, t.sleeps)
  }

  /** A read takes the committed characters in order and drops nothing but an
      end-of-file mark that comes first; it sleeps only when it has used up all
      there is. */
  lemma {:induction false} TakeIsPrefix(s: seq<int>, n: nat, began: bool)
    ensures var t := Take(s, n, began);
      t.text == Payload(s[..t.moved]) && (t.sleeps ==> t.moved == |s| && |t.text| < n)
    decreases |s|
  {
    hide Payload;
    var t := Take(s, n, began);
    NoPayload();
    if n > 0 && s != [] {
      assert s[..0] == [] && s[..1] == [s[0]];
      if s[0] == CTRL_D || s[0] == NEWLINE {
        PayloadMore(s, 0);
      } else {
        TakeIsPrefix(s[1..], n - 1, true);
        PayloadFirst(s[..t.moved]);
        assert s[..t.moved][1..] == s[1..][..t.moved - 1];
      }
    } else {
      assert s[..t.moved] == [];
    }
  }

  lemma NoPayload()
    ensures Payload([]) == []
  {
  }

  /** A read that returns has all it wants, or a newline at its end, or is at an
      end-of-file mark; no newline is inside what it returns. */
  lemma {:induction false} TakeStops(s: seq<int>, n: nat, began: bool)
    ensures var t := Take(s, n, began);
      && (forall i :: 0 <= i < |t.text| - 1 ==> t.text[i] != NEWLINE)
      && (t.sleeps || |t.text| == n || (t.text != [] && t.text[|t.text| - 1] == NEWLINE)
          || (t.moved < |s| && s[t.moved] == CTRL_D) || (!began && t.text == [] && t.moved == 1 && s[0] == CTRL_D))
    decreases |s|
  {
    if n > 0 && s != [] && s[0] != CTRL_D && s[0] != NEWLINE {
      TakeStops(s[1..], n - 1, true);
    }
  }

  lemma {:induction false} PayloadFirst(s: seq<int>)
    requires s != []
    ensures Payload(s) == (if s[0] == CTRL_D then [] else [s[0]]) + Payload(s[1..])
    decreases |s|
  {
    if |s| > 1 {
      var t := s[..|s| - 1];
      PayloadFirst(t);
      assert t[1..] == s[1..][..|s| - 2];
    }
  }

  /** The characters between two indices of the ring. */
  function Window(b: seq<int>, from: nat, to: nat): (line: seq<int>)
    requires |b| == INPUT_BUF && from <= to
    ensures |line| == to - from
  {
    seq(to - from, k requires 0 <= k < to - from => b[(from + k) % INPUT_BUF])
  }

  // ------------------------------------------------------------ the class

  /** How a stretch of console_read ends. */
  datatype ReadEnd = Returns | Sleeps | Killed

  class Console {
    const buf: array<int>
    var r: nat
    var w: nat
    var e: nat
    /** Every character that was ever committed, and every one ever delivered. */
    ghost var committed: seq<int>
    ghost var delivered: seq<int>

    ghost predicate Valid()
      reads this, buf
    {
      && buf.Length == INPUT_BUF
      && r <= w <= e <= r + INPUT_BUF && |committed| == w
      && (forall k :: r <= k < w ==> buf[k % INPUT_BUF] == committed[k])
      && (forall k :: w <= k < e ==> buf[k % INPUT_BUF] != NEWLINE)
      && delivered == Payload(committed[..r])
    }

    /** The line being edited. */
    ghost function Line(): (line: seq<int>)
      reads this, buf
      requires Valid()
      ensures |line| == e - w
    {
      Window(buf[..], w, e)
    }

    constructor ()
      ensures Valid() && fresh(buf) && committed == [] && Line() == []
    {
      buf := new int[INPUT_BUF];
      r, w, e, committed, delivered := 0, 0, 0, [], [];
    }

    /** One round of console_intr, for a character.  Readers are woken exactly when
        a line is committed. */
    method Intr(c: int) returns (woken: bool)
      requires Valid()
      modifies this`e, this`w, this`committed, buf
      ensures Valid() && (committed, Line()) == Typed(old(committed), old(Line()), c, old(e - r))
      ensures woken <==> Commits(c, old(e - r))
      ensures c == 21 ==> committed == old(committed) && Line() == []
      ensures c == 8 || c == 127 ==>
        committed == old(committed) && Line() == if old(Line()) == [] then [] else old(Line())[..old(|Line()|) - 1]
      ensures c == 16 || (c !in {8, 21, 127} && (c == 0 || old(e - r) >= 128)) ==>
        committed == old(committed) && Line() == old(Line())
      ensures c !in {0, 8, 16, 21, 127} && old(e - r) < 128 ==>
        var line := old(Line()) + [if c == 13 then 10 else c];
        if c in {4, 10, 13} || old(e - r) == 127 then woken && committed == old(committed) + line && Line() == []
        else !woken && committed == old(committed) && Line() == line
    {
      hide Payload, Window;
      woken := false;
      if c == CTRL_P {
      } else if c == CTRL_U {
        KillLine();
      } else if c == CTRL_H || c == RUBOUT {
        if e != w {
          WindowLess(buf[..], w, e);
          e := e - 1;
        } else {
          WindowEmpty(buf[..], w);
        }
      } else if c != 0 && e - r < INPUT_BUF {
        woken := Put(if c == RETURN then NEWLINE else c);
      }
    }

    /** Control-U: since the line holds no newline, all of it goes. */
    method KillLine()
      requires Valid()
      modifies this`e
      ensures Valid() && Line() == []
    {
      hide Payload, Window;
      while e != w && buf[(e - 1) % INPUT_BUF] != NEWLINE
        invariant w <= e <= old(e) && Valid()
      {
        e := e - 1;
      }
      WindowEmpty(buf[..], w);
    }

    /** An ordinary character. */
    method Put(ch: int) returns (woken: bool)
      requires Valid() && e - r < INPUT_BUF
      modifies this`e, this`w, this`committed, buf
      ensures Valid() && woken == (ch == NEWLINE || ch == CTRL_D || old(e - r) + 1 == INPUT_BUF)
      ensures woken ==> committed == old(committed) + (old(Line()) + [ch]) && Line() == []
      ensures !woken ==> committed == old(committed) && Line() == old(Line()) + [ch]
    {
      hide Payload, Window;
      Store(ch);
      e := e + 1;
      WindowMore(old(buf[..]), buf[..], w, e);
      ghost var longer := Window(buf[..], w, e);
      if ch == NEWLINE || ch == CTRL_D || e == r + INPUT_BUF {
        Committed(longer);
        w := e;
        committed := committed + longer;
        assert committed[..r] == old(committed)[..r];
        WindowEmpty(buf[..], w);
        return true;
      }
      return false;
    }

    /** input.buf[input.e % 128] = c, which is no place that still holds input. */
    method Store(c: int)
      requires Valid() && e - r < INPUT_BUF
      modifies buf
      ensures Valid()
      ensures buf[e % INPUT_BUF] == c && forall k :: r <= k < e ==> buf[k % INPUT_BUF] == old(buf[k % INPUT_BUF])
    {
      forall k | r <= k < e ensures k % INPUT_BUF != e % INPUT_BUF {
        DifferentPlaces(k, e);
      }
      buf[e % INPUT_BUF] := c;
    }

    lemma Committed(longer: seq<int>)
      requires r <= w <= e && |committed| == w && buf.Length == INPUT_BUF && longer == Window(buf[..], w, e)
      requires forall k :: r <= k < w ==> buf[k % INPUT_BUF] == committed[k]
      ensures var all := committed + longer;
        |all| == e && forall k :: r <= k < |all| ==> buf[k % INPUT_BUF] == all[k]
    {
      var all := committed + longer;
      forall k | r <= k < |all| ensures buf[k % INPUT_BUF] == all[k] {
        if k >= w {
          assert all[k] == longer[k - w];
        }
      }
    }

    /** console_intr: all characters up to the first 0xff. */
    method ConsoleIntr(typed: seq<int>)
      requires Valid()
      modifies this`e, this`w, this`committed, buf
      ensures Valid() && old(committed) <= committed
      ensures (committed, Line()) == TypedAll(old(committed), old(Line()), typed, old(w) - r)
    {
      hide Typed, TypedAll;
      var i := 0;
      assert typed[0..] == typed;
      ghost var goal := TypedAll(committed, Line(), typed, w - r);
      while i < |typed| && typed[i] != NO_CHAR
        invariant 0 <= i <= |typed| && Valid() && old(committed) <= committed
        invariant TypedAll(committed, Line(), typed[i..], w - r) == goal
      {
        TypedStep(committed, Line(), typed, i, w - r);
        var woken := Intr(typed[i]);
        i := i + 1;
      }
      TypedEnds(committed, Line(), typed, i, w - r);
    }

    /** console_read from where it holds the lock until it returns or sleeps, with
        `n` of `target` characters still wanted.  `killed` is the flag that it tests, which
        nothing in the kernel sets. */
    method ReadSome(n: nat, target: nat, killed: bool) returns (text: seq<int>, end: ReadEnd)
      requires Valid() && n <= target
      modifies this`r, this`delivered
      ensures Valid() && delivered == old(delivered) + text
      ensures var t := Take(committed[old(r)..], n, n < target);
        && text == t.text && r == old(r) + t.moved
        && end == (if !t.sleeps then Returns else if killed then Killed else Sleeps)
    {
      hide Payload, Take, SoFar;
      text := [];
      var left := n;
      ghost var goal := Take(committed[r..], n, n < target);
      SoFarStart(committed[r..], n, n < target);
      while left > 0
        invariant 0 <= left <= n && |text| == n - left && old(r) <= r <= w && Valid()
        invariant delivered == old(delivered) + text
        invariant SoFar(goal, text, r - old(r), committed[r..], left, left < target)
        decreases left
      {
        SoFarStep(goal, text, r - old(r), committed[r..], left, left < target);
        if r == w {
          return text, if killed then Killed else Sleeps;
        }
        var c := buf[r % INPUT_BUF];
        assert c == committed[r] == committed[r..][0] && committed[r..][1..] == committed[r + 1..];
        PayloadMore(committed, r);
        if c == CTRL_D {
          if left == target {
            r := r + 1;
          }
          return text, Returns;
        }
        r := r + 1;
        text := text + [c];
        delivered := delivered + [c];
        left := left - 1;
        if c == NEWLINE {
          return text, Returns;
        }
      }
      SoFarStep(goal, text, r - old(r), committed[r..], left, left < target);
      return text, Returns;
    }
  }

  /** A read has `text` and moved on by `moved`, and goes on from `s`. */
  ghost predicate SoFar(goal: Taken, text: seq<int>, moved: nat, s: seq<int>, left: nat, began: bool) {
    var t := Take(s, left, began);
    goal == Taken(text + t.text, moved + t.moved, t.sleeps)
  }

  lemma SoFarStart(s: seq<int>, n: nat, began: bool)
    ensures SoFar(Take(s, n, began), [], 0, s, n, began)
  {
    assert [] + Take(s, n, began).text == Take(s, n, began).text;
  }

  lemma SoFarStep(goal: Taken, text: seq<int>, moved: nat, s: seq<int>, left: nat, began: bool)
    requires SoFar(goal, text, moved, s, left, began)
    ensures left == 0 ==> goal == Taken(text, moved, false)
    ensures left > 0 && s == [] ==> goal == Taken(text, moved, true)
    ensures left > 0 && s != [] && s[0] == CTRL_D ==> goal == Taken(text, moved + if began then 0 else 1, false)
    ensures left > 0 && s != [] && s[0] == NEWLINE ==> goal == Taken(text + [NEWLINE], moved + 1, false)
    ensures left > 0 && s != [] && s[0] != CTRL_D && s[0] != NEWLINE ==>
      SoFar(goal, text + [s[0]], moved + 1, s[1..], left - 1, true)
  {
    assert text + [] == text;
    if left > 0 && s != [] && s[0] != CTRL_D && s[0] != NEWLINE {
      var t := Take(s[1..], left - 1, true);
      assert text + ([s[0]] + t.text) == text + [s[0]] + t.text;
    }
  }

  lemma WindowEmpty(b: seq<int>, w: nat)
    requires |b| == INPUT_BUF
    ensures Window(b, w, w) == []
  {
  }

  lemma WindowLess(b: seq<int>, w: nat, e: nat)
    requires |b| == INPUT_BUF && w < e
    ensures var line := Window(b, w, e); Window(b, w, e - 1) == line[..|line| - 1]
  {
  }

  lemma WindowMore(b: seq<int>, b': seq<int>, w: nat, e: nat)
    requires |b| == |b'| == INPUT_BUF && w < e
    requires forall k :: w <= k < e - 1 ==> b'[k % INPUT_BUF] == b[k % INPUT_BUF]
    ensures Window(b', w, e) == Window(b, w, e - 1) + [b'[(e - 1) % INPUT_BUF]]
  {
    var x, y := Window(b', w, e), Window(b, w, e - 1);
    forall k | 0 <= k < |y| ensures x[k] == y[k] {
      assert x[k] == b'[(w + k) % INPUT_BUF];
    }
  }

  lemma DifferentPlaces(k: nat, e: nat)
    requires k < e < k + INPUT_BUF
    ensures k % INPUT_BUF != e % INPUT_BUF
  {
  }

  // -------------------------------------------------------- many characters

  /** The effect of a sequence of characters, while `unread` committed characters
      wait to be read. */
  function TypedAll(committed: seq<int>, line: seq<int>, typed: seq<int>, unread: nat): (seq<int>, seq<int>)
    decreases |typed|
  {
    if typed == [] || typed[0] == NO_CHAR then (committed, line)
    else
      var next := Typed(committed, line, typed[0], unread + |line|);
      TypedAll(next.0, next.1, typed[1..], unread + |next.0| - |committed|)
  }

  lemma TypedFirst(committed: seq<int>, line: seq<int>, a: seq<int>, unread: nat)
    requires a != [] && a[0] != NO_CHAR
    ensures var next := Typed(committed, line, a[0], unread + |line|);
      TypedAll(committed, line, a, unread) == TypedAll(next.0, next.1, a[1..], unread + |next.0| - |committed|)
  {
    hide Typed;
  }

  /** One character, and characters after characters. */
  lemma {:induction false} TypedInOrder(committed: seq<int>, line: seq<int>, a: seq<int>, b: seq<int>, unread: nat)
    requires NO_CHAR !in a
    ensures var next := TypedAll(committed, line, a, unread);
      && |committed| <= |next.0|
      && TypedAll(committed, line, a + b, unread) == TypedAll(next.0, next.1, b, unread + |next.0| - |committed|)
    ensures |a| == 1 ==> TypedAll(committed, line, a, unread) == Typed(committed, line, a[0], unread + |line|)
    decreases |a|
  {
    hide Typed;
    if a == [] {
      assert a + b == b;
    } else {
      var next := Typed(committed, line, a[0], unread + |line|);
      TypedFirst(committed, line, a, unread);
      TypedFirst(committed, line, a + b, unread);
      assert |a| == 1 ==> a[1..] == [];
      TypedInOrder(next.0, next.1, a[1..], b, unread + |next.0| - |committed|);
      assert (a + b)[1..] == a[1..] + b;
    }
  }

  lemma TypedStep(committed: seq<int>, line: seq<int>, typed: seq<int>, i: nat, unread: nat)
    requires i < |typed| && typed[i] != NO_CHAR
    ensures var next := Typed(committed, line, typed[i], unread + |line|);
      TypedAll(committed, line, typed[i..], unread)
      == TypedAll(next.0, next.1, typed[i + 1..], unread + |next.0| - |committed|)
  {
    assert typed[i..][1..] == typed[i + 1..];
  }

  lemma TypedEnds(committed: seq<int>, line: seq<int>, typed: seq<int>, i: nat, unread: nat)
    requires i <= |typed| && (i < |typed| ==> typed[i] == NO_CHAR)
    ensures TypedAll(committed, line, typed[i..], unread) == (committed, line)
  {
  }
}
