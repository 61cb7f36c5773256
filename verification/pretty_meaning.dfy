/** What the printed form of a schema statement keeps of its meaning: its words, and its quoted literals. */
module PrettyMeaning {
  import opened Seqs
  import opened Chars
  import opened Pretty

  // ---- Tidying in parts ----

  /** Behind a front that ends in no white space, the rest is tidied on its own. */
  lemma {:induction false} TidyApart(last: char, gap: string, f: string, t: string)
    requires f != [] && !IsSpace(f[|f| - 1])
    ensures TidyFrom(last, gap, f + t) == TidyFrom(last, gap, f) + TidyFrom(f[|f| - 1], [], t)
    decreases |f|
  {
    TidyFirst(last, gap, f);
    TidyFirst(last, gap, f + t);
    hide *;
    var c, g, end := f[0], f[1..], TidyFrom(f[|f| - 1], [], t);
    TailOfBoth(f, t);
    Uncons(f);
    if IsSpace(c) {
      TidyApart(last, gap + [c], g, t);
    } else {
      var kept := if IsParen(c) then [] else Kept(last, gap);
      var more := if |f| == 1 then [] else TidyFrom(c, [], g);
      if |f| == 1 {
        Empty(t);
        TidyEnds(c, []);
        Empty([c]);
      } else {
        TidyApart(c, [], g, t);
      }
      Assoc(kept, [c] + more, end);
      Assoc([c], more, end);
    }
  }

  lemma {:induction false} TidyEndsAlike(last: char, gap: string, f: string)
    requires f != [] && !IsSpace(f[|f| - 1])
    ensures var r := TidyFrom(last, gap, f); r != [] && r[|r| - 1] == f[|f| - 1]
    decreases |f|
  {
    TidyFirst(last, gap, f);
    hide TidyFrom, Kept;
    if IsSpace(f[0]) {
      TidyEndsAlike(last, gap + [f[0]], f[1..]);
    } else if |f| > 1 {
      TidyEndsAlike(f[0], [], f[1..]);
    } else {
      TidyEnds(f[0], []);
    }
  }

  // ---- Blanks ----

  /** White space of which the same is kept. */
  predicate SameGap(g: string, h: string) {
    AllSpace(g) && AllSpace(h) && g != [] && h != [] && g[0] == h[0] && (g[0] == '\r' ==> (|g| > 1 <==> |h| > 1))
  }

  lemma {:induction false} GapsAlike(last: char, g: string, h: string, s: string)
    requires SameGap(g, h)
    ensures TidyFrom(last, g, s) == TidyFrom(last, h, s)
    decreases |s|
  {
    TidyFirst(last, g, s);
    TidyFirst(last, h, s);
    if s != [] && IsSpace(s[0]) {
      hide TidyFrom;
      GapsAlike(last, g + [s[0]], h + [s[0]], s[1..]);
    }
  }

  lemma {:induction false} GapGathers(last: char, gap: string, g: string, b: string)
    requires AllSpace(g)
    ensures TidyFrom(last, gap, g + b) == TidyFrom(last, gap + g, b)
    decreases |g|
  {
    if g == [] {
      Empty(b);
      Empty(gap);
    } else {
      TailOfBoth(g, b);
      TidyFirst(last, gap, g + b);
      hide TidyFrom;
      GapGathers(last, gap + [g[0]], g[1..], b);
      Uncons(g);
      Assoc(gap, [g[0]], g[1..]);
    }
  }

  lemma {:induction false} GapsBehind(last: char, gap: string, a: string, g: string, h: string, b: string)
    requires AllSpace(gap) && SameGap(g, h)
    ensures TidyFrom(last, gap, a + (g + b)) == TidyFrom(last, gap, a + (h + b))
    decreases |a|
  {
    if a == [] {
      Empty(g + b);
      Empty(h + b);
      GapGathers(last, gap, g, b);
      GapGathers(last, gap, h, b);
      GapsAlike(last, gap + g, gap + h, b);
    } else {
      TailOfBoth(a, g + b);
      TailOfBoth(a, h + b);
      TidyFirst(last, gap, a + (g + b));
      TidyFirst(last, gap, a + (h + b));
      hide TidyFrom;
      if IsSpace(a[0]) {
        GapsBehind(last, gap + [a[0]], a[1..], g, h, b);
      } else {
        GapsBehind(a[0], [], a[1..], g, h, b);
      }
    }
  }

  /** Of white space only the first byte counts, wherever it stands, be it inside quotes or behind a
      comment, and whether a carriage return is the only one. */
  lemma GapsAreAlike(a: string, g: string, h: string, b: string)
    requires SameGap(g, h)
    ensures Tidied(a + (g + b)) == Tidied(a + (h + b))
  {
    GapsBehind('(', [], a, g, h, b);
  }

  /** So two blanks are printed as one, and a line end behind a blank is lost with the end of the comment
      that it was. */
  lemma BlanksAreSqueezed(a: string, b: string)
    ensures Tidied(a + ("  " + b)) == Tidied(a + (" " + b)) && Tidied(a + (" \n" + b)) == Tidied(a + (" " + b))
  {
    GapsAreAlike(a, "  ", " ", b);
    GapsAreAlike(a, " \n", " ", b);
  }

  // ---- The passes in bytes ----

  /** Between two bytes the first of the white space is kept, or a line feed for a carriage return that more
      follows, unless a parenthesis drops it. */
  lemma SpaceBetween(a: string, x: char, g: string, y: char, b: string)
    requires !IsSpace(x) && !IsSpace(y) && g != [] && AllSpace(g)
    ensures Tidied(a + [x] + (g + ([y] + b))) ==
      Tidied(a + [x]) + (if x == '(' || y == '(' || y == ')' then "" else if g[0] == '\r' && |g| > 1 then "\n" else [g[0]])
        + Tidied([y] + b)
  {
    var f := a + [x];
    LastOf(a, x);
    FirstOf(y, b);
    TidyApart('(', [], f, g + ([y] + b));
    GapGathers(x, [], g, [y] + b);
    Empty(g);
    TidyFirst(x, g, [y] + b);
    TidyFirst('(', [], [y] + b);
    hide TidyFrom;
    var kept, rest := if IsParen(y) then [] else Kept(x, g), [y] + TidyFrom(y, [], b);
    Empty(rest);
    Assoc(Tidied(f), kept, rest);
    Assoc(kept, [y], TidyFrom(y, [], b));
  }

  lemma {:induction false} OpenDrops(g: string, s: string)
    ensures TidyFrom('(', g, s) == TidyFrom('(', [], s)
    decreases |s|
  {
    TidyFirst('(', g, s);
    TidyFirst('(', [], s);
    if s != [] && IsSpace(s[0]) {
      hide TidyFrom;
      OpenDrops(g + [s[0]], s[1..]);
      OpenDrops([] + [s[0]], s[1..]);
    }
  }

  lemma {:induction false} EndDrops(last: char, gap: string, s: string, g: string)
    requires AllSpace(g)
    ensures TidyFrom(last, gap, s + g) == TidyFrom(last, gap, s)
    decreases |s|
  {
    if s == [] {
      Empty(g);
      GapGathers(last, gap, g, []);
      TidyEnds(last, gap + g);
      TidyEnds(last, gap);
    } else {
      TailOfBoth(s, g);
      TidyFirst(last, gap, s + g);
      TidyFirst(last, gap, s);
      hide TidyFrom;
      if IsSpace(s[0]) {
        EndDrops(last, gap + [s[0]], s[1..], g);
      } else {
        EndDrops(s[0], [], s[1..], g);
      }
    }
  }

  /** At the ends all of it is dropped, and a text without any stays. */
  lemma SpaceAtEnds(g: string, s: string)
    requires AllSpace(g)
    ensures Tidied(g + s) == Tidied(s) && Tidied(s + g) == Tidied(s)
    ensures (forall k | 0 <= k < |s| :: !IsSpace(s[k])) ==> Tidied(s) == s
  {
    GapGathers('(', [], g, s);
    OpenDrops([] + g, s);
    EndDrops('(', [], s, g);
    TidyIsFixed(s);
  }

  function Count(c: char, s: string): (n: nat) { if s == [] then 0 else Count(c, s[..|s| - 1]) + if s[|s| - 1] == c then 1 else 0 }

  lemma {:induction false} DepthIsCount(s: string)
    ensures Depth(s) == Count('(', s) - Count(')', s)
  {
    if s != [] {
      DepthIsCount(s[..|s| - 1]);
    }
  }

  /** The parentheses open behind the byte `i` of a line that starts with `d` open ones. */
  function OpenAt(s: string, d: int, i: nat): (n: int)
    requires i < |s|
  {
    d + Count('(', s[..i + 1]) - Count(')', s[..i + 1])
  }

  /** Behind which byte a line is broken, and before which. */
  predicate BreaksBehind(s: string, d: int, i: nat)
    requires i < |s|
  {
    OpenAt(s, d, i) == 1 && (s[i] == '(' || s[i] == ',' || s[i] == '\n')
  }

  predicate BreaksBefore(s: string, d: int, broken: nat, i: nat)
    requires i < |s|
  {
    s[i] == ')' && OpenAt(s, d, i) == 0 && broken > 0 && i > 0
  }

  /** The first line goes on to the first byte `n` at which one is broken, and is followed by what is
      printed behind it and the lines of the rest. */
  lemma FirstLine(s: string, d: int, broken: nat, n: nat)
    requires n <= |s| && forall i | 0 <= i < n :: !BreaksBehind(s, d, i) && !BreaksBefore(s, d, broken, i)
    ensures n == |s| ==> Layout(s, d, broken, []) == [Line(s, ";\n")]
    ensures n < |s| && BreaksBefore(s, d, broken, n) ==>
      Layout(s, d, broken, []) == [Line(s[..n], "\n")] + Layout(s[n..], 1, broken, [])
    ensures n < |s| && BreaksBehind(s, d, n) ==>
      Layout(s, d, broken, []) ==
        [Line(if s[n] == '\n' then s[..n] else s[..n] + [s[n]], "\n  ")] + Layout(SkipSpaces(s[n + 1..]), 1, broken + 1, [])
  {
    hide Layout;
    forall i | 0 <= i < |s|
      ensures Stays(s, d, broken, i) <==> !BreaksBehind(s, d, i) && !BreaksBefore(s, d, broken, i)
      ensures d + Depth(s[..i + 1]) == OpenAt(s, d, i)
    {
      DepthIsCount(s[..i + 1]);
    }
    if n == |s| || BreaksBehind(s, d, n) || BreaksBefore(s, d, broken, n) {
      LayoutAtStop(s, d, broken, n);
      if n < |s| {
        DepthStep(s, n);
      }
    }
  }

  // ---- Quoted literals ----

  predicate IsMark(c: char) { c == '\'' || c == '"' || c == '`' }

  /** A literal is tidied on its own, whatever stands around it, and kept exactly if it is tidy with its
      quotes: no white space at its ends, doubled, inside parentheses or before one. */
  lemma {:induction false} LiteralIsTidied(a: string, body: string, b: string, c: char) returns (front: string, back: string)
    requires IsMark(c)
    ensures Tidied(a + ([c] + (body + [c]) + b)) == front + ([c] + TidyFrom(c, [], body + [c]) + back)
    ensures front + [c] == Tidied(a + [c]) && back == TidyFrom(c, [], b)
    ensures TidyFrom(c, [], body + [c]) == body + [c] <==> Tidy([c] + body + [c])
  {
    assert !IsSpace(c);
    var inner, mid := body + [c], TidyFrom(c, [], body + [c]);
    back := TidyFrom(c, [], b);
    var head := Tidied(a + [c]);
    LastOf(a, c);
    LastOf(body, c);
    TidyEndsAlike('(', [], a + [c]);
    Unsnoc(head);
    front := head[..|head| - 1];
    TidyApart('(', [], a + [c], inner + b);
    TidyApart(c, [], inner, b);
    TidyFromTidy(c, [], inner);
    Empty([c]);
    Assoc([c], body, [c]);
    if Tidy([c] + inner) {
      TidyFromFixed(c, [], inner);
      Empty(inner);
    }
    hide *;
    Assoc(a, [c], inner + b);
    Assoc([c], inner, b);
    Assoc(front, [c], mid + back);
    Assoc([c], mid, back);
  }

  // ---- Where lines are broken ----

  /** How far the layout has come behind a part of the text. */
  datatype Progress = Progress(lines: seq<Line>, depth: int, broken: nat, cur: string)

  function ReadOn(s: string, depth: int, broken: nat, cur: string): (p: Progress)
    decreases |s|
  {
    if s == [] then Progress([], depth, broken, cur)
    else
      var d := depth + Turn(s[0]);
      if Closes(s[0], d, broken, cur) then
        var p := ReadOn(s[1..], d, broken, [s[0]]);
        p.(lines := [Line(cur, CLOSE)] + p.lines)
      else if Breaks(s[0], d) then
        var p := ReadOn(SkipSpaces(s[1..]), d, broken + 1, []);
        p.(lines := [Line(Ended(cur, s[0]), BREAK)] + p.lines)
      else ReadOn(s[1..], d, broken, cur + [s[0]])
  }

  lemma {:induction false} SkipSpacesOfBoth(a: string, x: string)
    requires x != [] && !IsSpace(x[0])
    ensures SkipSpaces(a + x) == SkipSpaces(a) + x
  {
    if a == [] {
      Empty(x);
    } else {
      TailOfBoth(a, x);
      if IsSpace(a[0]) {
        SkipSpacesOfBoth(a[1..], x);
      }
    }
  }

  lemma {:induction false} LayoutOfBoth(a: string, x: string, depth: int, broken: nat, cur: string)
    requires x != [] && !IsSpace(x[0])
    ensures var p := ReadOn(a, depth, broken, cur);
      Layout(a + x, depth, broken, cur) == p.lines + Layout(x, p.depth, p.broken, p.cur)
    decreases |a|
  {
    if a == [] {
      Empty(x);
    } else {
      TailOfBoth(a, x);
      var d := depth + Turn(a[0]);
      var rest := if Closes(a[0], d, broken, cur) || !Breaks(a[0], d) then a[1..] else SkipSpaces(a[1..]);
      SkipSpacesOfBoth(a[1..], x);
      var p := ReadOn(a, depth, broken, cur);
      if Closes(a[0], d, broken, cur) {
        LayoutOfBoth(rest, x, d, broken, [a[0]]);
      } else if Breaks(a[0], d) {
        LayoutOfBoth(rest, x, d, broken + 1, []);
      } else {
        LayoutOfBoth(rest, x, d, broken, cur + [a[0]]);
      }
      if p.lines != [] {
        Assoc(p.lines[..1], p.lines[1..], Layout(x, p.depth, p.broken, p.cur));
      }
    }
  }

  lemma {:induction false} DepthOfBoth(a: string, b: string)
    ensures Depth(a + b) == Depth(a) + Depth(b)
    decreases |b|
  {
    if b == [] {
      Empty(a);
    } else {
      var c, d := b[..|b| - 1], b[|b| - 1];
      assert (a + b)[..|a + b| - 1] == a + c && (a + b)[|a + b| - 1] == d;
      DepthOfBoth(a, c);
    }
  }

  lemma {:induction false} DepthOfTail(s: string)
    requires s != []
    ensures Depth(s) == Turn(s[0]) + Depth(s[1..])
  {
    Uncons(s);
    DepthOfBoth([s[0]], s[1..]);
    assert [s[0]][..0] == [] && Depth([]) == 0;
  }

  lemma {:induction false} DepthSkipped(s: string)
    ensures Depth(SkipSpaces(s)) == Depth(s)
  {
    if s != [] && IsSpace(s[0]) {
      DepthOfTail(s);
      DepthSkipped(s[1..]);
    }
  }

  lemma {:induction false} ReadOnDepth(s: string, depth: int, broken: nat, cur: string)
    ensures ReadOn(s, depth, broken, cur).depth == depth + Depth(s)
    decreases |s|
  {
    if s != [] {
      var d := depth + Turn(s[0]);
      DepthOfTail(s);
      hide Depth;
      if Closes(s[0], d, broken, cur) {
        ReadOnDepth(s[1..], d, broken, [s[0]]);
      } else if Breaks(s[0], d) {
        DepthSkipped(s[1..]);
        ReadOnDepth(SkipSpaces(s[1..]), d, broken + 1, []);
      } else {
        ReadOnDepth(s[1..], d, broken, cur + [s[0]]);
      }
    } else {
      assert Depth([]) == 0;
    }
  }

  lemma {:induction false} CurIsPrefix(s: string, depth: int, broken: nat, cur: string)
    ensures var lines := Layout(s, depth, broken, cur); lines != [] && cur <= lines[0].text
    decreases |s|
  {
    if s != [] {
      var d := depth + Turn(s[0]);
      if !Closes(s[0], d, broken, cur) && !Breaks(s[0], d) {
        CurIsPrefix(s[1..], d, broken, cur + [s[0]]);
      }
    }
  }

  /** No line is broken at the byte `i` of a literal that begins at `depth`, when `broken` lines were
      broken off before. */
  predicate Unbroken(lit: string, depth: int, broken: nat, i: nat)
    requires i < |lit|
  {
    var d := depth + Depth(lit[..i + 1]);
    !Breaks(lit[i], d) && !(lit[i] == ')' && broken > 0 && d == 0)
  }

  predicate NeverBroken(lit: string, depth: int, broken: nat) {
    forall i | 0 <= i < |lit| :: Unbroken(lit, depth, broken, i)
  }

  lemma FirstBroken(lit: string, depth: int, broken: nat) returns (n: nat)
    ensures n <= |lit| && (forall i | 0 <= i < n :: Unbroken(lit, depth, broken, i))
    ensures n < |lit| ==> !Unbroken(lit, depth, broken, n)
  {
    hide Unbroken;
    n := 0;
    while n < |lit| && Unbroken(lit, depth, broken, n)
      invariant n <= |lit| && forall i | 0 <= i < n :: Unbroken(lit, depth, broken, i)
    {
      n := n + 1;
    }
  }

  /** The first line holds all of the literal that begins behind `cur`. */
  predicate HoldsLiteral(lines: seq<Line>, cur: string, lit: string) { lines != [] && cur + lit <= lines[0].text }

  /** Where a literal begins, and reading to its byte `n`. */
  lemma {:induction false} LiteralRuns(lit: string, b: string, depth: int, broken: nat, cur: string, n: nat)
    requires n <= |lit| && lit != [] && lit[0] != ')' && forall i | 0 <= i < n :: Unbroken(lit, depth, broken, i)
    ensures Layout(lit + b, depth, broken, cur) == Layout(lit[n..] + b, depth + Depth(lit[..n]), broken, cur + lit[..n])
  {
    if n == 0 {
      WholeSlice(lit);
      Empty(cur);
    } else {
      var i := n - 1;
      LiteralRuns(lit, b, depth, broken, cur, i);
      DepthStep(lit, i);
      var t := lit[i..] + b;
      assert t[0] == lit[i] && t[1..] == lit[n..] + b;
      assert cur + lit[..i] + [lit[i]] == cur + lit[..n];
      assert Unbroken(lit, depth, broken, i);
    }
  }

  /** The line on which a literal begins holds all of it exactly if no line is broken at any of its bytes. */
  lemma {:induction false} LiteralOnLine(lit: string, b: string, depth: int, broken: nat, cur: string)
    requires |lit| >= 2 && IsMark(lit[0]) && IsMark(lit[|lit| - 1])
    ensures HoldsLiteral(Layout(lit + b, depth, broken, cur), cur, lit) <==> NeverBroken(lit, depth, broken)
  {
    var n := FirstBroken(lit, depth, broken);
    LiteralRuns(lit, b, depth, broken, cur, n);
    CurIsPrefix(lit[n..] + b, depth + Depth(lit[..n]), broken, cur + lit[..n]);
    if n == |lit| {
      WholeSlice(lit);
    } else {
      assert n < |lit| - 1;
      DepthStep(lit, n);
      var t := lit[n..] + b;
      assert t[0] == lit[n];
      LineStops(t, depth + Depth(lit[..n]), broken, cur + lit[..n]);
    }
  }

  lemma {:induction false} LineStops(t: string, depth: int, broken: nat, cur: string)
    requires t != [] && (Breaks(t[0], depth + Turn(t[0])) || Closes(t[0], depth + Turn(t[0]), broken, cur))
    ensures var lines := Layout(t, depth, broken, cur); lines != [] && |lines[0].text| <= |cur| + 1
  {}

  /** In a long statement, the literal is printed on the line on which it begins exactly if none of its
      bytes is a comma, line feed or opening parenthesis at depth one, or a closing one that ends the last. */
  lemma {:induction false} LiteralIsUnbroken(front: string, lit: string, back: string)
    requires |lit| >= 2 && IsMark(lit[0]) && IsMark(lit[|lit| - 1])
    ensures var p := ReadOn(front, 0, 0, []);
      var lines := Layout(lit + back, p.depth, p.broken, p.cur);
      && p.depth == Depth(front)
      && Layout(front + (lit + back), 0, 0, []) == p.lines + lines
      && (HoldsLiteral(lines, p.cur, lit) <==> NeverBroken(lit, Depth(front), p.broken))
  {
    hide Depth, Layout, ReadOn, NeverBroken, HoldsLiteral;
    var p := ReadOn(front, 0, 0, []);
    ReadOnDepth(front, 0, 0, []);
    TailOfBoth(lit, back);
    LayoutOfBoth(front, lit + back, 0, 0, []);
    LiteralOnLine(lit, back, p.depth, p.broken, p.cur);
  }

  /** A literal that is tidy with its quotes is printed as it stands: in a short statement always, in a
      long one on the line on which it begins exactly if no line is broken at any of its bytes. */
  lemma LiteralIsPrinted(a: string, body: string, b: string, c: char) returns (front: string, back: string)
    requires IsMark(c) && Tidy([c] + body + [c])
    ensures var (schema, lit) := (a + ([c] + (body + [c]) + b), [c] + body + [c]);
      var p := ReadOn(front, 0, 0, []);
      var lines := Layout(lit + back, p.depth, p.broken, p.cur);
      && Tidied(schema) == front + (lit + back)
      && (|Tidied(schema)| < 79 ==> SchemaLines(schema) == [Line(front + (lit + back), END)])
      && (|Tidied(schema)| >= 79 ==>
          && SchemaLines(schema) == p.lines + lines
          && (HoldsLiteral(lines, p.cur, lit) <==> NeverBroken(lit, Depth(front), p.broken)))
  {
    front, back := LiteralIsTidied(a, body, b, c);
    var lit := [c] + body + [c];
    Assoc([c], body, [c]);
    assert lit[0] == c && lit[|lit| - 1] == c;
    LiteralIsUnbroken(front, lit, back);
    hide Tidied, Layout, ReadOn, NeverBroken, HoldsLiteral, Depth, Tidy;
  }

  // ---- A literal that is changed ----

  const FRONT := "CREATE TABLE t(x DEFAULT 'a"
  const BACK := "b')"

  lemma SqueezedIsTidy()
    ensures Tidy(FRONT + (" " + BACK))
  {
    var s := FRONT + (" " + BACK);
    assert s == "CREATE TABLE t(x DEFAULT 'a b')";
    forall k | 0 <= k < |s| && IsSpace(s[k]) ensures Between(s, k) {
      assert k == 6 || k == 12 || k == 16 || k == 24 || k == 27;
    }
  }

  lemma LiteralsAreSqueezed()
    ensures Printed(SchemaLines(FRONT + ("  " + BACK))) == FRONT + (" " + BACK) + END
  {
    var tidied := FRONT + (" " + BACK);
    SqueezedIsTidy();
    assert !Quoted(tidied) && |tidied| < 79;
    hide *;
    TidyIsFixed(tidied);
    BlanksAreSqueezed(FRONT, BACK);
    ShortStatement(FRONT + ("  " + BACK));
    PlainLine(tidied);
  }

  lemma PlainLine(text: string)
    requires !Quoted(text)
    ensures SchemaLine(text, END) == text + END
  {}

  // ---- Words ----

  /** Bytes that are words of their own. */
  predicate Alone(c: char) { c == '(' || c == ')' || c == ',' || c == ';' }

  function Flush(w: string): (r: seq<string>) { if w == [] then [] else [w] }

  /** The words of a text: runs of bytes without white space, parentheses, commas and semicolons, and each of
      the latter; `w` is the word that has begun. Without quotes and comments SQL's tokens lie within words. */
  function Words(s: string, w: string): (r: seq<string>)
    decreases |s|
  {
    if s == [] then Flush(w)
    else if IsSpace(s[0]) then Flush(w) + Words(s[1..], [])
    else if Alone(s[0]) then Flush(w) + ([[s[0]]] + Words(s[1..], []))
    else Words(s[1..], w + [s[0]])
  }

  /** A front that ends a word can be read first. */
  lemma {:induction false} WordsApart(s: string, t: string, w: string)
    requires s != [] && (IsSpace(s[|s| - 1]) || Alone(s[|s| - 1]) || t == [] || IsSpace(t[0]) || Alone(t[0]))
    ensures Words(s + t, w) == Words(s, w) + Words(t, [])
    decreases |s|
  {
    TailOfBoth(s, t);
    var c := s[0];
    var w' := if IsSpace(c) || Alone(c) then [] else w + [c];
    var here := if IsSpace(c) then Flush(w) else if Alone(c) then Flush(w) + [[c]] else [];
    WordsStep(s + t, w);
    WordsStep(s, w);
    if |s| == 1 {
      assert s[1..] == [] && Words([], w') == Flush(w');
      hide *;
      Empty(t);
      WordsBegin(t, w');
      Assoc(here, Flush(w'), Words(t, []));
    } else {
      assert s[|s| - 1] == s[1..][|s| - 2];
      hide *;
      WordsApart(s[1..], t, w');
      Assoc(here, Words(s[1..], w'), Words(t, []));
    }
  }

  lemma {:induction false} WordsStep(s: string, w: string)
    requires s != []
    ensures var c := s[0];
      var w' := if IsSpace(c) || Alone(c) then [] else w + [c];
      Words(s, w) == (if IsSpace(c) then Flush(w) else if Alone(c) then Flush(w) + [[c]] else []) + Words(s[1..], w')
  {
    Assoc(Flush(w), [[s[0]]], Words(s[1..], []));
  }

  /** Where a word ends, what has begun of it is a word. */
  lemma {:induction false} WordsBegin(t: string, w: string)
    requires w == [] || t == [] || IsSpace(t[0]) || Alone(t[0])
    ensures Words(t, w) == Flush(w) + Words(t, []) && Words([], w) == Flush(w)
  {
    if t != [] && w != [] {
      assert Flush([]) == [];
      if IsSpace(t[0]) {
        Empty(Words(t[1..], []));
      } else {
        Empty([[t[0]]] + Words(t[1..], []));
      }
    } else {
      Empty(Flush(w));
      Empty(Words(t, []));
    }
  }

  lemma {:induction false} SpacesEnd(gap: string, s: string, w: string)
    requires AllSpace(gap)
    ensures Words(gap + s, w) == if gap == [] then Words(s, w) else Flush(w) + Words(s, [])
    decreases |gap|
  {
    if gap == [] {
      Empty(s);
    } else {
      TailOfBoth(gap, s);
      SpacesEnd(gap[1..], s, []);
      Empty(Words(s, []));
    }
  }

  /** Tidying keeps the words: `w` has begun with `last` as its end, or `last` is a word of its own. */
  lemma {:induction false} TidyFromWords(last: char, gap: string, s: string, w: string)
    requires AllSpace(gap) && (Alone(last) ==> w == [])
    ensures Words(TidyFrom(last, gap, s), w) == Words(gap + s, w)
    decreases |s|
  {
    TidyFirst(last, gap, s);
    if s == [] {
      SpacesEnd(gap, [], w);
      Empty(gap);
      Empty(Flush(w));
    } else if IsSpace(s[0]) {
      hide TidyFrom, Words;
      TidyFromWords(last, gap + [s[0]], s[1..], w);
      Assoc(gap, [s[0]], s[1..]);
      Uncons(s);
    } else {
      var c := s[0];
      var kept := if IsParen(c) then [] else Kept(last, gap);
      var more := [c] + TidyFrom(c, [], s[1..]);
      FirstOf(c, TidyFrom(c, [], s[1..]));
      SpacesEnd(kept, more, w);
      SpacesEnd(gap, s, w);
      WordsStep(more, w);
      WordsStep(s, w);
      WordsStep(more, []);
      WordsStep(s, []);
      Empty(s[1..]);
      TidyFromWords(c, [], s[1..], if Alone(c) then [] else w + [c]);
      TidyFromWords(c, [], s[1..], if Alone(c) then [] else [c]);
      KeptGap(last, gap);
      hide TidyFrom, Words;
      Empty([c]);
    }
  }

  lemma KeptGap(last: char, gap: string)
    ensures Kept(last, gap) == [] <==> gap == [] || last == '('
  {}

  /** Tidying keeps the words of every text. */
  lemma TidiedWords(s: string)
    ensures Words(Tidied(s), []) == Words(s, [])
  {
    TidyFromWords('(', [], s, []);
    Empty(s);
  }

  // ---- The words of what is printed ----

  lemma {:induction false} PrintedFirst(line: Line, more: seq<Line>)
    ensures Printed([line] + more) == SchemaLine(line.text, line.tail) + Printed(more)
    decreases |more|
  {
    hide SchemaLine;
    if more == [] {
      Empty([line]);
      PrintedMore([], line);
      Empty(SchemaLine(line.text, line.tail));
      NoTexts();
    } else {
      var some, last := more[..|more| - 1], more[|more| - 1];
      Unsnoc(more);
      Assoc([line], some, [last]);
      PrintedFirst(line, some);
      PrintedMore([line] + some, last);
      PrintedMore(some, last);
      Assoc(SchemaLine(line.text, line.tail), Printed(some), SchemaLine(last.text, last.tail));
    }
  }

  /** A text and then white space, and then more. */
  lemma {:induction false} WordsBroken(text: string, gap: string, more: string)
    requires AllSpace(gap) && gap != []
    ensures Words(text + gap + more, []) == Words(text, []) + Words(more, [])
  {
    Assoc(text, gap, more);
    SpacesEnd(gap, more, []);
    TailOfBoth(gap, more);
    hide Words;
    WordsBegin([], []);
    Empty(Words(more, []));
    if text == [] {
      Empty(gap + more);
    } else {
      WordsApart(text, gap + more, []);
    }
  }

  lemma {:induction false} WordsSkipped(s: string)
    ensures Words(SkipSpaces(s), []) == Words(s, [])
  {
    if s != [] && IsSpace(s[0]) {
      WordsSkipped(s[1..]);
      Empty(Words(s[1..], []));
    }
  }

  /** A line that ends with the byte `c` behind which it was broken has the words of its text. */
  lemma {:induction false} WordsEnded(cur: string, c: char, s: string)
    requires Alone(c) || c == '\n'
    ensures Words(cur + ([c] + s), []) == Words(Ended(cur, c), []) + Words(s, [])
  {
    Assoc(cur, [c], s);
    LastOf(cur, c);
    if c == '\n' {
      WordsBroken(cur, "\n", s);
    } else {
      WordsApart(cur + [c], s, []);
    }
  }

  predicate NoneQuoted(lines: seq<Line>) { forall k | 0 <= k < |lines| :: !Quoted(lines[k].text) }

  lemma LastWords(cur: string)
    requires !Quoted(cur)
    ensures Words(Printed([Line(cur, END)]), []) == Words(cur, []) + [";"]
  {
    PrintedFirst(Line(cur, END), []);
    NoTexts();
    Empty([Line(cur, END)]);
    Empty(cur + END);
    assert END[0] == ';' && END[1..] == "\n" && "\n"[1..] == [];
    assert Words(END, []) == [";"];
    hide Words;
    WordsBegin([], []);
    if cur == [] {
      Empty(END);
    } else {
      WordsApart(cur, END, []);
    }
  }

  /** Breaking into lines keeps the words. */
  lemma {:induction false} LayoutWords(s: string, depth: int, broken: nat, cur: string)
    requires NoneQuoted(Layout(s, depth, broken, cur))
    ensures Words(Printed(Layout(s, depth, broken, cur)), []) == Words(cur + s, []) + [";"]
    decreases |s|
  {
    var lines := Layout(s, depth, broken, cur);
    if s == [] {
      Empty(cur);
      assert !Quoted(lines[0].text);
      LastWords(cur);
    } else {
      var d := depth + Turn(s[0]);
      Uncons(s);
      hide Words, Printed, SkipSpaces, Quoted;
      if Closes(s[0], d, broken, cur) {
        var more := Layout(s[1..], d, broken, [s[0]]);
        OneLine(lines, Line(cur, CLOSE), more);
        LayoutWords(s[1..], d, broken, [s[0]]);
        WordsBroken(cur, CLOSE, Printed(more));
        WordsApart(cur, s, []);
        Assoc(Words(cur, []), Words(s, []), [";"]);
      } else if Breaks(s[0], d) {
        var more := Layout(SkipSpaces(s[1..]), d, broken + 1, []);
        var text := Ended(cur, s[0]);
        OneLine(lines, Line(text, BREAK), more);
        LayoutWords(SkipSpaces(s[1..]), d, broken + 1, []);
        Empty(SkipSpaces(s[1..]));
        WordsSkipped(s[1..]);
        WordsBroken(text, BREAK, Printed(more));
        WordsEnded(cur, s[0], s[1..]);
        Assoc(Words(text, []), Words(s[1..], []), [";"]);
      } else {
        LayoutWords(s[1..], d, broken, cur + [s[0]]);
        Assoc(cur, [s[0]], s[1..]);
      }
    }
  }

  lemma {:induction false} OneLine(lines: seq<Line>, line: Line, more: seq<Line>)
    requires lines == [line] + more && NoneQuoted(lines)
    ensures NoneQuoted(more) && Printed(lines) == line.text + line.tail + Printed(more)
  {
    assert forall k | 0 <= k < |more| :: more[k] == lines[k + 1];
    assert lines[0] == line;
    PrintedFirst(line, more);
  }

  function Joined(ws: seq<string>): (r: string) { if ws == [] then [] else ws[0] + Joined(ws[1..]) }

  lemma {:induction false} JoinedOfBoth(a: seq<string>, b: seq<string>)
    ensures Joined(a + b) == Joined(a) + Joined(b)
  {
    if a == [] {
      Empty(b);
      Empty(Joined(b));
    } else {
      TailOfBoth(a, b);
      JoinedOfBoth(a[1..], b);
      Assoc(a[0], Joined(a[1..]), Joined(b));
    }
  }

  /** The words put together are the text without white space. */
  lemma {:induction false} WordsInk(s: string, w: string)
    ensures Joined(Words(s, w)) == w + Ink(s)
    decreases |s|
  {
    assert Joined(Flush(w)) == w by {
      Empty(w);
    }
    if s != [] {
      var c := s[0];
      WordsStep(s, w);
      var w' := if IsSpace(c) || Alone(c) then [] else w + [c];
      var here := if IsSpace(c) then Flush(w) else if Alone(c) then Flush(w) + [[c]] else [];
      WordsInk(s[1..], w');
      JoinedOfBoth(here, Words(s[1..], w'));
      JoinedOfBoth(Flush(w), [[c]]);
      assert Joined([[c]]) == [c] by {
        Empty([c]);
      }
      hide Words;
      Empty(Ink(s[1..]));
      Empty(w);
      Assoc(w, [c], Ink(s[1..]));
    } else {
      Empty(w);
    }
  }

  /** What is printed for a schema statement has its words and the final semicolon exactly if no line is
      rewritten. */
  lemma WordsAreKept(schema: string)
    ensures var lines := SchemaLines(schema);
      Words(Printed(lines), []) == Words(schema, []) + [";"] <==> NoneQuoted(lines)
  {
    var lines := SchemaLines(schema);
    var t := Tidied(schema);
    SchemaIsKept(schema);
    TidiedWords(schema);
    WordsInk(Printed(lines), []);
    WordsInk(schema, []);
    JoinedOfBoth(Words(schema, []), [";"]);
    assert Joined([";"]) == ";" by {
      Empty(";");
    }
    Empty(Ink(schema));
    Empty(Ink(Printed(lines)));
    if NoneQuoted(lines) {
      hide Words, Layout, Printed, Tidied, Ink, Quoted;
      if |t| >= 79 {
        LayoutWords(t, 0, 0, []);
        Empty(t);
      } else {
        assert !Quoted(lines[0].text);
        LastWords(t);
      }
    }
  }

  // ---- Line ends ----

  /** Of the white space between two bytes a line end is kept, which is what ends a comment, exactly if it
      comes first, or right behind a carriage return, and neither byte is a parenthesis that drops it. */
  lemma LineEndIsKept(last: char, gap: string, c: char, more: string) returns (kept: string)
    requires AllSpace(gap) && !IsSpace(c)
    ensures AllSpace(kept) && TidyFrom(last, gap, [c] + more) == kept + ([c] + TidyFrom(c, [], more))
    ensures '\n' in kept <==> gap != [] && last != '(' && !IsParen(c) && (gap[0] == '\n' || (gap[0] == '\r' && |gap| > 1))
  {
    FirstOf(c, more);
    TidyFirst(last, gap, [c] + more);
    kept := if IsParen(c) then [] else Kept(last, gap);
  }
}
