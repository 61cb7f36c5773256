/** MODE_Pretty: how a schema statement is tidied up and broken into lines, in place. */
module Pretty {
  import opened Seqs
  import opened Chars
  import opened CString

  /** The bytes that are not white space, in order. */
  function Ink(s: string): (r: string) {
    if s == [] then [] else (if IsSpace(s[0]) then [] else [s[0]]) + Ink(s[1..])
  }

  lemma {:induction false} InkOfBoth(s: string, t: string)
    ensures Ink(s + t) == Ink(s) + Ink(t)
  {
    if s == [] {
      assert s + t == t;
    } else {
      assert (s + t)[1..] == s[1..] + t;
      InkOfBoth(s[1..], t);
    }
  }

  lemma {:induction false} NoInk(s: string)
    requires AllSpace(s)
    ensures Ink(s) == []
  {
    if s != [] {
      NoInk(s[1..]);
    }
  }

  lemma {:induction false} SkippedInk(s: string)
    ensures Ink(SkipSpaces(s)) == Ink(s)
  {
    if s != [] && IsSpace(s[0]) {
      SkippedInk(s[1..]);
    }
  }

  // ---- Tidying up ----

  predicate IsParen(c: char) { c == '(' || c == ')' }

  /** What stays of the white space `gap` that follows `last`: at most its first byte, and a line
      feed for a carriage return that does not stand alone. */
  function Kept(last: char, gap: string): (r: string)
    ensures |r| <= |gap| && |r| <= 1 && (AllSpace(gap) ==> AllSpace(r))
  {
    if gap == [] || last == '(' then []
    else if gap[0] == '\r' && |gap| > 1 then ['\n']
    else [gap[0]]
  }

  /** What is written for `s` after the byte `last` and the white space `gap`. White space around
      parentheses on their inner side, before any parenthesis, and at the end is dropped. */
  function TidyFrom(last: char, gap: string, s: string): (r: string)
    decreases |s|
  {
    if s == [] then []
    else if IsSpace(s[0]) then TidyFrom(last, gap + [s[0]], s[1..])
    else (if IsParen(s[0]) then [] else Kept(last, gap)) + [s[0]] + TidyFrom(s[0], [], s[1..])
  }

  /** White space at the start is dropped as after an opening parenthesis. */
  function Tidied(s: string): (r: string) { TidyFrom('(', [], s) }

  lemma {:induction false} TidyFromInk(last: char, gap: string, s: string)
    requires AllSpace(gap)
    ensures Ink(TidyFrom(last, gap, s)) == Ink(s)
    decreases |s|
  {
    if s != [] {
      if IsSpace(s[0]) {
        TidyFromInk(last, gap + [s[0]], s[1..]);
      } else {
        var kept := if IsParen(s[0]) then [] else Kept(last, gap);
        var rest := TidyFrom(s[0], [], s[1..]);
        NoInk(kept);
        InkOfBoth(kept, [s[0]] + rest);
        assert kept + [s[0]] + rest == kept + ([s[0]] + rest);
        assert ([s[0]] + rest)[1..] == rest;
        TidyFromInk(s[0], [], s[1..]);
      }
    }
  }

  /** No white space at either end, doubled, just inside parentheses, or before a parenthesis. */
  predicate Tidy(s: string) {
    forall k | 0 <= k < |s| && IsSpace(s[k]) :: Between(s, k)
  }

  predicate Between(s: string, k: nat)
    requires k < |s|
  {
    0 < k < |s| - 1 && !IsSpace(s[k - 1]) && s[k - 1] != '(' && !IsSpace(s[k + 1]) && !IsParen(s[k + 1])
  }

  lemma TidyTogether(last: char, kept: string, tail: string)
    requires !IsSpace(last) && tail != [] && !IsSpace(tail[0]) && Tidy(tail)
    requires |kept| <= 1 && (kept != [] ==> last != '(' && !IsParen(tail[0]))
    ensures Tidy([last] + (kept + tail))
  {
    var r := [last] + (kept + tail);
    forall k | 0 <= k < |r| && IsSpace(r[k]) ensures Between(r, k) {
      if k > |kept| {
        assert r[k] == tail[k - 1 - |kept|] && Between(tail, k - 1 - |kept|);
      }
    }
  }

  lemma TidyOne(last: char)
    requires !IsSpace(last)
    ensures Tidy([last])
  {}

  lemma {:induction false} TidyFromTidy(last: char, gap: string, s: string)
    requires !IsSpace(last) && AllSpace(gap)
    ensures Tidy([last] + TidyFrom(last, gap, s))
    decreases |s|
  {
    TidyFirst(last, gap, s);
    if s == [] {
      TidyOne(last);
      Empty([last]);
    } else if IsSpace(s[0]) {
      hide TidyFrom, Tidy;
      TidyFromTidy(last, gap + [s[0]], s[1..]);
    } else {
      hide TidyFrom, Tidy, AllSpace;
      var kept := if IsParen(s[0]) then [] else Kept(last, gap);
      TidyFromTidy(s[0], [], s[1..]);
      TidyTogether(last, kept, [s[0]] + TidyFrom(s[0], [], s[1..]));
    }
  }

  lemma {:induction false} TidyFirst(last: char, gap: string, s: string)
    ensures AllSpace([])
    ensures TidyFrom(last, gap, s) ==
      if s == [] then []
      else if IsSpace(s[0]) then TidyFrom(last, gap + [s[0]], s[1..])
      else (if IsParen(s[0]) then [] else Kept(last, gap)) + ([s[0]] + TidyFrom(s[0], [], s[1..]))
  {
    hide Kept;
  }

  /** Tidying keeps every byte that is not white space and leaves a tidy text. */
  lemma {:induction false} TidiedKeeps(s: string)
    ensures Ink(Tidied(s)) == Ink(s) && Tidy(Tidied(s))
  {
    TidyFromInk('(', [], s);
    TidyFromTidy('(', [], s);
    var r := ['('] + Tidied(s);
    forall k | 0 <= k < |Tidied(s)| && IsSpace(Tidied(s)[k]) ensures Between(Tidied(s), k) {
      assert r[k + 1] == Tidied(s)[k] && Between(r, k + 1);
    }
  }

  lemma TidyBehind(a: string, s: string)
    requires Tidy(a + s) && s != [] && !IsSpace(s[0])
    ensures Tidy(s)
  {
    var t, n := a + s, |a|;
    forall k | 0 <= k < |s| && IsSpace(s[k]) ensures Between(s, k) {
      assert t[n + k] == s[k] && t[n + k - 1] == s[k - 1];
      assert Between(t, n + k);
      assert t[n + k + 1] == s[k + 1];
    }
  }

  lemma {:induction false} TidyFromFixed(last: char, gap: string, s: string)
    requires !IsSpace(last) && Tidy([last] + gap + s) && AllSpace(gap)
    ensures TidyFrom(last, gap, s) == gap + s
    decreases |s|
  {
    var t := [last] + gap + s;
    if gap != [] {
      assert t[1] == gap[0] && Between(t, 1);
    }
    if s != [] {
      if IsSpace(s[0]) {
        assert t[1 + |gap|] == s[0] && Between(t, 1 + |gap|);
        assert gap == [];
        assert [last] + [s[0]] + s[1..] == t;
        TidyFromFixed(last, [s[0]], s[1..]);
      } else {
        TidyBehind([last] + gap, s);
        assert [s[0]] + [] + s[1..] == s;
        TidyFromFixed(s[0], [], s[1..]);
      }
    }
  }

  /** A text is tidy exactly if tidying leaves it alone; so tidying twice is tidying once. */
  lemma TidyIsFixed(s: string)
    ensures Tidied(s) == s <==> Tidy(s)
    ensures Tidied(Tidied(s)) == Tidied(s)
  {
    TidiedKeeps(s);
    TidiedKeeps(Tidied(s));
    if Tidy(s) {
      FixedWhenTidy(s);
    }
    FixedWhenTidy(Tidied(s));
  }

  lemma FixedWhenTidy(s: string)
    requires Tidy(s)
    ensures Tidied(s) == s
  {
    if s != [] {
      assert !IsSpace(s[0]);
      assert [s[0]] + [] + s[1..] == s;
      TidyFromFixed(s[0], [], s[1..]);
    }
  }

  lemma {:induction false} TidyStep(last: char, gap: string, s: string, i: nat)
    requires i < |s|
    ensures TidyFrom(last, gap, s[i..]) ==
      if IsSpace(s[i]) then TidyFrom(last, gap + [s[i]], s[i + 1..])
      else (if IsParen(s[i]) then [] else Kept(last, gap)) + [s[i]] + TidyFrom(s[i], [], s[i + 1..])
  {
    assert s[i..][1..] == s[i + 1..];
  }

  lemma KeptEnds(last: char, gap: string)
    requires gap == [] || last == '('
    ensures Kept(last, gap) == []
  {}

  lemma {:induction false} TidyEnds(last: char, gap: string)
    ensures TidyFrom(last, gap, []) == []
  {}

  /** A byte of white space in the first pass. */
  method KeepSpace(z: array<char>, j0: nat, i: nat, ghost out: string, ghost last: char, ghost gap: string) returns (j: nat)
    requires 0 < j0 <= i < z.Length && IsSpace(z[i])
    requires z[..j0] == out + Kept(last, gap) && out != [] && out[|out| - 1] == last && !IsSpace(last) && AllSpace(gap)
    modifies z
    ensures j <= i + 1 && z[..j] == out + Kept(last, gap + [old(z[i])])
    ensures forall k | i < k < z.Length :: z[k] == old(z[k])
  {
    var c := z[i];
    j := j0;
    assert z[j - 1] == (out + Kept(last, gap))[j - 1];
    assert Kept(last, gap) == [] ==> z[j - 1] == last;
    assert Kept(last, gap) != [] ==> z[j - 1] == Kept(last, gap)[0] && j == |out| + 1;
    if z[j - 1] == '\r' {
      z[j - 1] := '\n';
    }
    if IsSpace(z[j - 1]) || z[j - 1] == '(' {
      return;
    }
    z[j] := c;
    j := j + 1;
  }

  /** The first pass, over a C string. The byte before the place it writes to is only looked at
      when there is one. */
  method Squeeze(z: array<char>, ghost s: string) returns (j: nat)
    requires z.Length == |s| + 1 && z[..] == s + [NUL] && NUL !in s
    modifies z
    ensures j <= |s| && z[j] == NUL && z[..j] == Tidied(s)
  {
    hide TidyFrom, Kept;
    j := 0;
    var i := 0;
    while IsSpace(z[i])
      invariant i <= |s| && z[..] == s + [NUL] && AllSpace(s[..i])
      invariant Tidied(s) == TidyFrom('(', s[..i], s[i..])
      decreases |s| - i
    {
      assert z[i] == (s + [NUL])[i];
      TidyStep('(', s[..i], s, i);
      assert s[..i] + [s[i]] == s[..i + 1];
      i := i + 1;
    }
    ghost var out, last, gap := "", '(', s[..i];
    KeptEnds(last, gap);
    assert Written(z, j, i, s, out, last, gap) && (out == [] ==> !IsSpace(z[i]));
    while z[i] != NUL
      invariant Written(z, j, i, s, out, last, gap)
      invariant out == [] ==> !IsSpace(z[i])
      decreases |s| - i
    {
      j, out, last, gap := SqueezeByte(z, j, i, s, out, last, gap);
      i := i + 1;
    }
    TidyEnds(last, gap);
    assert s[i..] == [] && out + [] == out;
    j := TrimEnd(z, j, out, Kept(last, gap));
    z[j] := NUL;
  }

  method TrimEnd(z: array<char>, j0: nat, ghost out: string, ghost spaces: string) returns (j: nat)
    requires j0 <= z.Length && z[..j0] == out + spaces && AllSpace(spaces) && (out != [] ==> !IsSpace(out[|out| - 1]))
    ensures j == |out| && z[..j] == out
  {
    j := j0;
    while j > 0 && IsSpace(z[j - 1])
      invariant |out| <= j <= j0
    {
      assert z[j - 1] == (out + spaces)[j - 1];
      j := j - 1;
    }
    assert j > 0 ==> z[j - 1] == (out + spaces)[j - 1];
    assert (out + spaces)[..|out|] == out;
  }

  /** The state of the first pass: `out` is written for good, `gap` was read since. */
  ghost predicate Written(z: array<char>, j: nat, i: nat, s: string, out: string, last: char, gap: string)
    reads z
  {
    && j <= i <= |s| && z.Length == |s| + 1 && (forall k | i <= k < z.Length :: z[k] == (s + [NUL])[k])
    && z[..j] == out + Kept(last, gap) && AllSpace(gap) && !IsSpace(last)
    && (if out == [] then j == 0 && last == '(' else out[|out| - 1] == last)
    && Tidied(s) == out + TidyFrom(last, gap, s[i..])
  }

  /** The body of the first pass. */
  method SqueezeByte(z: array<char>, j0: nat, i: nat, ghost s: string, ghost out0: string, ghost last0: char, ghost gap0: string)
    returns (j: nat, ghost out: string, ghost last: char, ghost gap: string)
    requires Written(z, j0, i, s, out0, last0, gap0) && i < |s| && NUL !in s && (out0 == [] ==> !IsSpace(z[i]))
    modifies z
    ensures Written(z, j, i + 1, s, out, last, gap) && out != []
  {
    hide TidyFrom, Kept, Tidied;
    j, out, last, gap := j0, out0, last0, gap0;
    var c := z[i];
    if IsSpace(c) {
      TidyStep(last, gap, s, i);
      j := KeepSpace(z, j, i, out, last, gap);
      gap := gap + [c];
    } else {
      j := PutInk(z, j, i, s, out, last, gap);
      out, last, gap := out + (if IsParen(c) then [] else Kept(last, gap)) + [c], c, [];
    }
  }

  /** A byte that is not white space in the first pass. */
  method PutInk(z: array<char>, j0: nat, i: nat, ghost s: string, ghost out: string, ghost last: char, ghost gap: string)
    returns (j: nat)
    requires Written(z, j0, i, s, out, last, gap) && i < |s| && NUL !in s && !IsSpace(z[i])
    modifies z
    ensures var c := old(z[i]); Written(z, j, i + 1, s, out + (if IsParen(c) then [] else Kept(last, gap)) + [c], c, [])
  {
    hide TidyFrom, Kept, Tidied;
    var c := z[i];
    ghost var before, kept := z[..j0], if IsParen(c) then [] else Kept(last, gap);
    TidyInk(s, out, last, gap, i);
    ghost var after := if IsParen(c) && before != [] && IsSpace(before[|before| - 1]) then before[..|before| - 1] else before;
    KeptIsAtEnd(before, after, out, last, gap, c);
    j := StoreInk(z, j0, c, after);
    KeptEnds(c, []);
    Empty(out + kept + [c]);
  }

  method StoreInk(z: array<char>, j0: nat, c: char, ghost after: string) returns (j: nat)
    requires j0 < z.Length
    requires after == if IsParen(c) && j0 > 0 && IsSpace(z[j0 - 1]) then z[..j0 - 1] else z[..j0]
    modifies z
    ensures 0 < j <= j0 + 1 && z[..j] == after + [c] && forall k | j0 < k < z.Length :: z[k] == old(z[k])
  {
    j := j0;
    if IsParen(c) && j > 0 && IsSpace(z[j - 1]) {
      j := j - 1;
    }
    z[j] := c;
    j := j + 1;
  }

  lemma {:induction false} TidyInk(s: string, out: string, last: char, gap: string, i: nat)
    requires i < |s| && !IsSpace(s[i]) && Tidied(s) == out + TidyFrom(last, gap, s[i..])
    ensures var c := s[i];
      Tidied(s) == out + (if IsParen(c) then [] else Kept(last, gap)) + [c] + TidyFrom(c, [], s[i + 1..])
  {
    TidyStep(last, gap, s, i);
    hide *;
    var c := s[i];
    var kept := if IsParen(c) then [] else Kept(last, gap);
    Assoc(out, kept + [c], TidyFrom(c, [], s[i + 1..]));
    Assoc(out, kept, [c]);
  }

  /** Taking back one byte of white space takes back all that was kept. */
  lemma KeptIsAtEnd(before: string, after: string, out: string, last: char, gap: string, c: char)
    requires before == out + Kept(last, gap) && AllSpace(gap) && !IsSpace(last)
    requires if out == [] then before == [] else out[|out| - 1] == last
    requires after == if IsParen(c) && before != [] && IsSpace(before[|before| - 1]) then before[..|before| - 1] else before
    ensures after == out + if IsParen(c) then [] else Kept(last, gap)
  {
    Empty(out);
    if Kept(last, gap) != [] {
      assert before[|before| - 1] == Kept(last, gap)[0] && before[..|before| - 1] == out;
    }
  }

  // ---- Breaking into lines ----

  /** One line to print: its text, and what is printed behind it. */
  datatype Line = Line(text: string, tail: string)

  const BREAK := "\n  "
  const CLOSE := "\n"
  const END := ";\n"

  /** The lines of a tidied statement: `depth` parentheses are open, `broken` lines were broken off
      before, and `cur` is the current line so far. Quotes play no part in it. */
  function Layout(s: string, depth: int, broken: nat, cur: string): (r: seq<Line>)
    decreases |s|
  {
    if s == [] then [Line(cur, END)]
    else
      var d := depth + Turn(s[0]);
      if Closes(s[0], d, broken, cur) then [Line(cur, CLOSE)] + Layout(s[1..], d, broken, [s[0]])
      else if Breaks(s[0], d) then [Line(Ended(cur, s[0]), BREAK)] + Layout(SkipSpaces(s[1..]), d, broken + 1, [])
      else Layout(s[1..], d, broken, cur + [s[0]])
  }

  /** Whether the line is broken off before `c`, which leads to `depth`. */
  predicate Closes(c: char, depth: int, broken: nat, cur: string) { c == ')' && broken > 0 && depth == 0 && cur != [] }

  function Turn(c: char): (r: int) { if c == '(' then 1 else if c == ')' then -1 else 0 }

  predicate Breaks(c: char, depth: int) { depth == 1 && (c == '(' || c == ',' || c == '\n') }

  /** A line broken after `c`; a line feed is not printed twice. */
  function Ended(cur: string, c: char): (r: string) { if c == '\n' then cur else cur + [c] }

  function Texts(lines: seq<Line>): (r: string) {
    if lines == [] then [] else lines[0].text + Texts(lines[1..])
  }

  lemma {:induction false} TextsOfBoth(a: seq<Line>, b: seq<Line>)
    ensures Texts(a + b) == Texts(a) + Texts(b)
  {
    if a == [] {
      assert a + b == b;
    } else {
      assert (a + b)[1..] == a[1..] + b;
      TextsOfBoth(a[1..], b);
    }
  }

  lemma {:induction false} TextsOfOne(line: Line, more: seq<Line>)
    ensures Texts([line] + more) == line.text + Texts(more)
  {
    assert ([line] + more)[1..] == more;
  }

  lemma {:induction false} LineKeeps(line: Line, more: seq<Line>)
    ensures Ink(Texts([line] + more)) == Ink(line.text) + Ink(Texts(more))
  {
    TextsOfOne(line, more);
    InkOfBoth(line.text, Texts(more));
  }

  lemma {:induction false} InkStep(s: string)
    requires s != []
    ensures Ink(s) == Ink([s[0]]) + Ink(s[1..])
    ensures Ink([]) == [] && (IsSpace(s[0]) ==> Ink([s[0]]) == [])
  {
    var first := [s[0]];
    assert first[1..] == [] && Ink([]) == [];
    assert Ink(first) == if IsSpace(s[0]) then [] else first;
    hide IsSpace;
    assert Ink(s) == (if IsSpace(s[0]) then [] else first) + Ink(s[1..]);
  }

  lemma {:induction false} LastKeeps(cur: string)
    ensures Ink(Texts([Line(cur, END)])) == Ink(cur) + Ink([])
  {
    TextsOfOne(Line(cur, END), []);
    assert [Line(cur, END)] + [] == [Line(cur, END)] && cur + [] == cur;
  }

  /** Breaking into lines keeps every byte that is not white space, in order. */
  lemma {:induction false} LayoutKeeps(s: string, depth: int, broken: nat, cur: string)
    ensures Ink(Texts(Layout(s, depth, broken, cur))) == Ink(cur) + Ink(s)
    decreases |s|
  {
    hide Ink, Texts, SkipSpaces;
    if s == [] {
      LastKeeps(cur);
    } else {
      var d := depth + Turn(s[0]);
      InkStep(s);
      if Closes(s[0], d, broken, cur) {
        LineKeeps(Line(cur, CLOSE), Layout(s[1..], d, broken, [s[0]]));
        LayoutKeeps(s[1..], d, broken, [s[0]]);
      } else if Breaks(s[0], d) {
        LineKeeps(Line(Ended(cur, s[0]), BREAK), Layout(SkipSpaces(s[1..]), d, broken + 1, []));
        LayoutKeeps(SkipSpaces(s[1..]), d, broken + 1, []);
        SkippedInk(s[1..]);
        InkOfBoth(cur, [s[0]]);
      } else {
        LayoutKeeps(s[1..], d, broken, cur + [s[0]]);
        InkOfBoth(cur, [s[0]]);
      }
    }
  }

  // ---- Where the breaks are ----

  function Depth(s: string): (r: int) { if s == [] then 0 else Depth(s[..|s| - 1]) + Turn(s[|s| - 1]) }

  /** The byte at `i` breaks no line, neither behind it nor before it, when a line starts with `s` at
      depth `d` and `broken` lines were broken off before. */
  predicate Stays(s: string, d: int, broken: nat, i: nat)
    requires i < |s|
  {
    var e := d + Depth(s[..i + 1]);
    !Breaks(s[i], e) && !Closes(s[i], e, broken, s[..i])
  }

  predicate Whole(s: string, d: int, broken: nat, n: nat)
    requires n <= |s|
  {
    forall i | 0 <= i < n :: Stays(s, d, broken, i)
  }

  /** The lines are those of the tidied text `s`: the first goes on to the first place where a line is
      broken, and the others are those of the rest. */
  ghost predicate WellBroken(lines: seq<Line>, s: string, d: int, broken: nat)
    decreases |lines|, 1
  {
    lines != [] && exists n | 0 <= n <= |s| :: Whole(s, d, broken, n) && BrokenAt(lines, s, d, broken, n)
  }

  /** The first line is broken at `n`: behind an opening parenthesis, comma or line feed at depth one,
      where the line feed and the white space that follows are dropped; once a line was broken off,
      before the parenthesis that closes the last open one; or not at all. */
  ghost predicate BrokenAt(lines: seq<Line>, s: string, d: int, broken: nat, n: nat)
    requires n <= |s| && lines != []
    decreases |lines|, 0
  {
    if n == |s| then lines == [Line(s, END)]
    else if Closes(s[n], d + Depth(s[..n + 1]), broken, s[..n]) then
      lines[0] == Line(s[..n], CLOSE) && WellBroken(lines[1..], s[n..], d + Depth(s[..n]), broken)
    else
      Breaks(s[n], d + Depth(s[..n + 1])) && lines[0] == Line(Ended(s[..n], s[n]), BREAK)
      && WellBroken(lines[1..], SkipSpaces(s[n + 1..]), 1, broken + 1)
  }

  lemma {:induction false} DepthStep(s: string, i: nat)
    requires i < |s|
    ensures Depth(s[..0]) == 0 && Depth(s[..i + 1]) == Depth(s[..i]) + Turn(s[i])
  {
    assert s[..i + 1][..i] == s[..i];
  }

  /** As far as no line is broken, the layout only reads on. */
  lemma {:induction false} LayoutRuns(s: string, d: int, broken: nat, n: nat)
    requires n <= |s| && Whole(s, d, broken, n)
    ensures Layout(s, d, broken, []) == Layout(s[n..], d + Depth(s[..n]), broken, s[..n])
  {
    if n == 0 {
      WholeSlice(s);
    } else {
      LayoutRuns(s, d, broken, n - 1);
      DepthStep(s, n - 1);
      assert Stays(s, d, broken, n - 1);
      LayoutGoesOn(s, d, broken, n - 1);
    }
  }

  lemma {:induction false} LayoutGoesOn(s: string, d: int, broken: nat, i: nat)
    requires i < |s|
    ensures var e := d + Depth(s[..i + 1]);
      Layout(s[i..], d + Depth(s[..i]), broken, s[..i]) ==
        if Closes(s[i], e, broken, s[..i]) then [Line(s[..i], CLOSE)] + Layout(s[i..], d + Depth(s[..i]), broken, [])
        else if Breaks(s[i], e) then [Line(Ended(s[..i], s[i]), BREAK)] + Layout(SkipSpaces(s[i + 1..]), e, broken + 1, [])
        else Layout(s[i + 1..], e, broken, s[..i + 1])
  {
    DepthStep(s, i);
    var t := s[i..];
    assert t[1..] == s[i + 1..] && s[..i] + [s[i]] == s[..i + 1] && [] + [s[i]] == [s[i]];
  }

  lemma FirstStop(s: string, d: int, broken: nat) returns (n: nat)
    ensures n <= |s| && Whole(s, d, broken, n) && (n < |s| ==> !Stays(s, d, broken, n))
  {
    hide Stays;
    n := 0;
    while n < |s| && Stays(s, d, broken, n)
      invariant n <= |s| && Whole(s, d, broken, n)
    {
      n := n + 1;
    }
  }

  /** The first line and what the rest is the layout of, by the first place where a line is broken. */
  lemma {:induction false} LayoutAtStop(s: string, d: int, broken: nat, n: nat)
    requires n <= |s| && Whole(s, d, broken, n) && (n < |s| ==> !Stays(s, d, broken, n))
    ensures n == |s| ==> Layout(s, d, broken, []) == [Line(s, END)]
    ensures n < |s| && Closes(s[n], d + Depth(s[..n + 1]), broken, s[..n]) ==>
      n > 0 && Layout(s, d, broken, []) == [Line(s[..n], CLOSE)] + Layout(s[n..], d + Depth(s[..n]), broken, [])
    ensures n < |s| && !Closes(s[n], d + Depth(s[..n + 1]), broken, s[..n]) ==>
      Breaks(s[n], d + Depth(s[..n + 1]))
      && Layout(s, d, broken, []) == [Line(Ended(s[..n], s[n]), BREAK)] + Layout(SkipSpaces(s[n + 1..]), 1, broken + 1, [])
  {
    LayoutRuns(s, d, broken, n);
    if n == |s| {
      WholeSlice(s);
    } else {
      LayoutGoesOn(s, d, broken, n);
    }
  }

  /** Only the first place where a line is broken counts. */
  lemma {:induction false} BrokenAtStop(lines: seq<Line>, s: string, d: int, broken: nat, n: nat)
    requires lines != [] && n <= |s| && Whole(s, d, broken, n) && (n < |s| ==> !Stays(s, d, broken, n))
    ensures WellBroken(lines, s, d, broken) <==> BrokenAt(lines, s, d, broken, n)
  {
    hide Depth, Breaks, Closes;
    forall m | 0 <= m <= |s| && Whole(s, d, broken, m) && m != n ensures !BrokenAt(lines, s, d, broken, m) {
      StopsAtStop(s, d, broken, m, n);
      assert Stays(s, d, broken, m);
    }
  }

  lemma StopsAtStop(s: string, d: int, broken: nat, m: nat, n: nat)
    requires m <= |s| && n <= |s| && m != n && Whole(s, d, broken, m) && Whole(s, d, broken, n)
    requires n < |s| ==> !Stays(s, d, broken, n)
    ensures m < n
  {
    hide Stays;
  }

  /** A layout is broken exactly where it should be, and no other lines are. */
  lemma {:induction false} LayoutBreaks(lines: seq<Line>, s: string, d: int, broken: nat)
    ensures WellBroken(lines, s, d, broken) <==> lines == Layout(s, d, broken, [])
    decreases |s|
  {
    var n := FirstStop(s, d, broken);
    LayoutAtStop(s, d, broken, n);
    hide Stays, Whole, Layout, Depth, Closes, Breaks;
    if lines != [] {
      BrokenAtStop(lines, s, d, broken, n);
      hide WellBroken;
      if n == |s| {
      } else if Closes(s[n], d + Depth(s[..n + 1]), broken, s[..n]) {
        LayoutBreaks(lines[1..], s[n..], d + Depth(s[..n]), broken);
        HeadAndTail(lines, Line(s[..n], CLOSE), Layout(s[n..], d + Depth(s[..n]), broken, []));
      } else {
        var rest := SkipSpaces(s[n + 1..]);
        LayoutBreaks(lines[1..], rest, 1, broken + 1);
        HeadAndTail(lines, Line(Ended(s[..n], s[n]), BREAK), Layout(rest, 1, broken + 1, []));
      }
    }
  }

  lemma HeadAndTail(lines: seq<Line>, line: Line, more: seq<Line>)
    requires lines != []
    ensures lines == [line] + more <==> lines[0] == line && lines[1..] == more
  {
    Uncons(lines);
  }

  // ---- Printing ----

  /** What is printed for a line: a table whose name is quoted is created only if it is not there. */
  function SchemaLine(text: string, tail: string): (r: string) {
    (if Quoted(text) then "CREATE TABLE IF NOT EXISTS " + text[13..] else text) + tail
  }

  predicate Quoted(text: string) {
    |text| > 13 && text[..13] == "CREATE TABLE " && (text[13] == '\'' || text[13] == '"')
  }

  function Printed(lines: seq<Line>): (r: string) {
    if lines == [] then [] else Printed(lines[..|lines| - 1]) + SchemaLine(lines[|lines| - 1].text, lines[|lines| - 1].tail)
  }

  lemma {:induction false} CTextStops(s: string, n: nat)
    requires n < |s| && s[n] == NUL && NUL !in s[..n]
    ensures CText(s) == s[..n]
    decreases n
  {
    if n > 0 {
      assert s[1..][..n - 1] == s[..n][1..];
      assert s[..n][0] == s[0];
      CTextStops(s[1..], n - 1);
    }
  }

  /** Printing the first `n` bytes of a buffer. The byte that makes way for the terminator is put back. */
  method PrintSchemaLineN(out0: string, z: array<char>, n: nat, tail: string) returns (out: string)
    requires n < z.Length && NUL !in z[..n]
    modifies z
    ensures z[..] == old(z[..]) && out == out0 + SchemaLine(z[..n], tail)
  {
    var c := z[n];
    z[n] := NUL;
    CTextStops(z[..], n);
    assert z[..][..n] == z[..n];
    out := out0 + SchemaLine(CText(z[..]), tail);
    z[n] := c;
  }

  lemma {:induction false} PrintedMore(lines: seq<Line>, line: Line)
    ensures Printed(lines + [line]) == Printed(lines) + SchemaLine(line.text, line.tail)
  {
    assert (lines + [line])[..|lines|] == lines;
  }

  /** The state of the second pass over the text `t` in `z`: `i` bytes are read, `lines` are printed,
      and the current line stands in the first `j` bytes. */
  ghost predicate Broken(z: array<char>, t: string, i: nat, j: nat, depth: int, broken: nat, lines: seq<Line>)
    reads z
  {
    && j <= i <= |t| < z.Length && z[i..|t| + 1] == t[i..] + [NUL]
    && NUL !in t && NUL !in z[..j]
    && Layout(t, 0, 0, []) == lines + Layout(t[i..], depth, broken, z[..j])
  }

  lemma {:induction false} LayoutStep(s: string, i: nat, depth: int, broken: nat, cur: string)
    requires i < |s|
    ensures var (c, more) := (s[i], s[i + 1..]);
      var d := depth + Turn(c);
      Layout(s[i..], depth, broken, cur) ==
        if Closes(c, d, broken, cur) then [Line(cur, CLOSE)] + Layout(more, d, broken, [c])
        else if Breaks(c, d) then [Line(Ended(cur, c), BREAK)] + Layout(SkipSpaces(more), d, broken + 1, [])
        else Layout(more, d, broken, cur + [c])
  {
    assert s[i..][1..] == s[i + 1..];
  }

  /** Prints a line, whose record is appended to `lines0`. */
  method Emit(ghost start: string, out0: string, z: array<char>, n: nat, tail: string, ghost lines0: seq<Line>)
    returns (out: string, ghost lines: seq<Line>)
    requires n < z.Length && NUL !in z[..n] && out0 == start + Printed(lines0)
    modifies z
    ensures z[..] == old(z[..]) && lines == lines0 + [Line(old(z[..n]), tail)] && out == start + Printed(lines)
  {
    hide Printed, SchemaLine;
    ghost var line := Line(z[..n], tail);
    PrintedMore(lines0, line);
    lines := lines0 + [line];
    out := PrintSchemaLineN(out0, z, n, tail);
  }

  /** The second pass, over a C string in a buffer. The open quote or bracket is followed, but
      nothing depends on it. */
  method BreakLines(out0: string, z: array<char>, ghost t: string) returns (out: string, ghost lines: seq<Line>)
    requires |t| < z.Length && NUL !in t && z[..|t| + 1] == t + [NUL]
    modifies z
    ensures lines == Layout(t, 0, 0, []) && out == out0 + Printed(lines)
  {
    hide Layout, Printed;
    NoneYet(t);
    out, lines := out0, [];
    var i: nat, j: nat, parens, broken: nat, end := 0, 0, 0, 0, NUL;
    assert t[0..] == t && z[0..|t| + 1] == z[..|t| + 1] && z[..0] == [];
    while z[i] != NUL
      invariant Broken(z, t, i, j, parens, broken, lines) && IsEnd(end) && out == out0 + Printed(lines)
      decreases |t| - i
    {
      FrontByte(z, t, i);
      i, j, parens, broken, end, out, lines := BreakByte(out0, out, z, t, i, j, parens, broken, end, lines);
      i := i + 1;
    }
    FrontByte(z, t, i);
    z[j] := NUL;
    out, lines := Emit(out0, out, z, j, END, lines);
  }

  lemma {:induction false} NoneYet(t: string)
    ensures Printed([]) == [] && Layout(t, 0, 0, []) == [] + Layout(t, 0, 0, [])
    ensures forall d, b, cur :: Layout([], d, b, cur) == [Line(cur, END)]
  {}

  lemma FrontByte(z: array<char>, t: string, i: nat)
    requires i <= |t| < z.Length && z[i..|t| + 1] == t[i..] + [NUL] && NUL !in t
    ensures z[i] == if i < |t| then t[i] else NUL
    ensures z[i] == NUL <==> i == |t|
    ensures i < |t| ==> z[i + 1..|t| + 1] == t[i + 1..] + [NUL]
  {
    assert z[i] == z[i..|t| + 1][0];
    if i < |t| {
      assert z[i + 1..|t| + 1] == z[i..|t| + 1][1..];
    }
  }

  predicate IsEnd(c: char) { c == NUL || c == '"' || c == '\'' || c == '`' || c == ']' }

  /** The first half of the second pass's body: quotes, parentheses, and the line broken off before `c`. */
  method Account(ghost start: string, out0: string, z: array<char>, c: char, j0: nat,
      parens0: int, broken: nat, end0: char, ghost lines0: seq<Line>)
    returns (j: nat, parens: int, end: char, out: string, ghost lines: seq<Line>)
    requires j0 < z.Length && NUL !in z[..j0] && IsEnd(end0) && out0 == start + Printed(lines0)
    modifies z
    ensures z[..] == old(z[..]) && IsEnd(end) && out == start + Printed(lines) && parens == parens0 + Turn(c)
    ensures if Closes(c, parens, broken, old(z[..j0])) then j == 0 && lines == lines0 + [Line(old(z[..j0]), CLOSE)]
      else j == j0 && lines == lines0
  {
    hide Printed;
    j, parens, end, out, lines := j0, parens0, end0, out0, lines0;
    if c == end {
      end := NUL;
    } else if c == '"' || c == '\'' || c == '`' {
      end := c;
    } else if c == '[' {
      end := ']';
    } else if c == '(' {
      parens := parens + 1;
    } else if c == ')' {
      parens := parens - 1;
      if broken > 0 && parens == 0 && j > 0 {
        out, lines := Emit(start, out, z, j, CLOSE, lines);
        j := 0;
      }
    }
  }

  /** The body of the second pass. */
  method BreakByte(ghost start: string, out0: string, z: array<char>, ghost t: string, i0: nat, j0: nat,
      parens0: int, broken0: nat, end0: char, ghost lines0: seq<Line>)
    returns (i: nat, j: nat, parens: int, broken: nat, end: char, out: string, ghost lines: seq<Line>)
    requires i0 < |t| && Broken(z, t, i0, j0, parens0, broken0, lines0) && IsEnd(end0) && out0 == start + Printed(lines0)
    modifies z
    ensures i0 <= i < |t| && Broken(z, t, i + 1, j, parens, broken, lines)
    ensures IsEnd(end) && out == start + Printed(lines)
  {
    hide Layout, Printed, SkipSpaces, IsEnd, Turn;
    ghost var cur := z[..j0];
    FrontByte(z, t, i0);
    LayoutStep(t, i0, parens0, broken0, cur);
    i, broken := i0, broken0;
    var c := z[i];
    j, parens, end, out, lines := Account(start, out0, z, c, j0, parens0, broken0, end0, lines0);
    ghost var cur1, lines1 := z[..j], lines;
    assert cur1 == if Closes(c, parens, broken, cur) then [] else cur;
    z[j] := c;
    j := j + 1;
    assert z[..j] == cur1 + [c] && [] + [c] == [c];
    assert z[i0 + 1..|t| + 1] == t[i0 + 1..] + [NUL];
    ghost var more := if Breaks(c, parens) then Layout(SkipSpaces(t[i + 1..]), parens, broken + 1, [])
      else Layout(t[i + 1..], parens, broken, z[..j]);
    Assoc(lines0, [Line(cur, CLOSE)], more);
    if parens == 1 && (c == '(' || c == ',' || c == '\n') {
      i, j, out, lines := Wrap(start, out, z, t, i, j, c, broken, lines);
      broken := broken + 1;
    }
  }

  /** The second half: the line broken off behind `c`. */
  method Wrap(ghost start: string, out0: string, z: array<char>, ghost t: string, i0: nat, j0: nat, c: char,
      ghost broken: nat, ghost lines0: seq<Line>)
    returns (i: nat, j: nat, out: string, ghost lines: seq<Line>)
    requires i0 < |t| < z.Length && 0 < j0 <= i0 + 1 && z[j0 - 1] == c && z[i0 + 1..|t| + 1] == t[i0 + 1..] + [NUL]
    requires NUL !in t && NUL !in z[..j0] && out0 == start + Printed(lines0)
    requires Layout(t, 0, 0, []) ==
      lines0 + ([Line(Ended(z[..j0 - 1], c), BREAK)] + Layout(SkipSpaces(t[i0 + 1..]), 1, broken + 1, []))
    modifies z
    ensures i0 <= i < |t| && Broken(z, t, i + 1, j, 1, broken + 1, lines) && out == start + Printed(lines)
  {
    hide Layout, Printed, SkipSpaces;
    j := j0;
    ghost var more := Layout(SkipSpaces(t[i0 + 1..]), 1, broken + 1, []);
    ghost var line := Line(Ended(z[..j0 - 1], c), BREAK);
    if c == '\n' {
      j := j - 1;
    }
    assert z[..j0] == z[..j0 - 1] + [c];
    assert z[..j] == line.text;
    out, lines := Emit(start, out0, z, j, BREAK, lines0);
    Assoc(lines0, [line], more);
    j := 0;
    assert z[..j] == [];
    assert z[i0 + 1..|t| + 1] == t[i0 + 1..] + [NUL];
    i := SkipAhead(z, i0, t);
    assert z[i + 1..|t| + 1] == z[i0 + 1..|t| + 1][i - i0..];
    assert z[i + 1..|t| + 1] == t[i + 1..] + [NUL];
  }

  /** Steps over the white space behind `i0`. */
  method SkipAhead(z: array<char>, i0: nat, ghost t: string) returns (i: nat)
    requires i0 < |t| < z.Length && z[i0 + 1..|t| + 1] == t[i0 + 1..] + [NUL]
    ensures i0 <= i < |t| && SkipSpaces(t[i0 + 1..]) == t[i + 1..]
  {
    i := i0;
    while IsSpace(z[i + 1])
      invariant i0 <= i < |t| && SkipSpaces(t[i0 + 1..]) == SkipSpaces(t[i + 1..])
      decreases |t| - i
    {
      assert z[i + 1] == (t[i0 + 1..] + [NUL])[i - i0];
      assert t[i + 1..][1..] == t[i + 2..];
      i := i + 1;
    }
    assert z[i + 1] == (t[i0 + 1..] + [NUL])[i - i0];
  }

  // ---- The whole branch ----

  lemma {:induction false} InkIn(s: string, c: char)
    requires !IsSpace(c)
    ensures c in Ink(s) <==> c in s
  {
    if s != [] {
      InkIn(s[1..], c);
    }
  }

  /** Only the last line ends the statement. */
  predicate EndsOnce(lines: seq<Line>) {
    && lines != [] && lines[|lines| - 1].tail == END
    && forall k | 0 <= k < |lines| - 1 :: lines[k].tail == BREAK || lines[k].tail == CLOSE
  }

  lemma {:induction false} LayoutEndsOnce(s: string, depth: int, broken: nat, cur: string)
    ensures EndsOnce(Layout(s, depth, broken, cur))
    decreases |s|
  {
    if s != [] {
      var d := depth + Turn(s[0]);
      if Closes(s[0], d, broken, cur) {
        LayoutEndsOnce(s[1..], d, broken, [s[0]]);
      } else if Breaks(s[0], d) {
        LayoutEndsOnce(SkipSpaces(s[1..]), d, broken + 1, []);
      } else {
        LayoutEndsOnce(s[1..], d, broken, cur + [s[0]]);
      }
    }
  }

  /** All lines but the last. */
  function Front(lines: seq<Line>): (r: seq<Line>)
    requires lines != []
  {
    lines[..|lines| - 1]
  }

  lemma {:induction false} InkOfPrintedLine(lines: seq<Line>)
    requires lines != [] && !Quoted(lines[|lines| - 1].text)
    ensures var last := lines[|lines| - 1];
      Ink(Printed(lines)) == Ink(Printed(Front(lines))) + Ink(last.text) + Ink(last.tail)
  {
    var some, last := Front(lines), lines[|lines| - 1];
    Unsnoc(lines);
    hide Ink, Printed, Quoted;
    PrintedMore(some, last);
    InkOfBoth(Printed(some), last.text + last.tail);
    InkOfBoth(last.text, last.tail);
  }

  lemma {:induction false} InkOfLine(lines: seq<Line>)
    requires lines != [] && !Quoted(lines[|lines| - 1].text)
    ensures var last := lines[|lines| - 1];
      && Ink(Printed(lines)) == Ink(Printed(Front(lines))) + Ink(last.text) + Ink(last.tail)
      && Ink(Texts(lines)) == Ink(Texts(Front(lines))) + Ink(last.text)
  {
    var some, last := Front(lines), lines[|lines| - 1];
    InkOfPrintedLine(lines);
    Unsnoc(lines);
    hide Ink, Texts, Printed, Quoted;
    TextsOfBoth(some, [last]);
    assert [last] + [] == [last];
    LineKeeps(last, []);
    NoTexts();
    InkOfBoth(Texts(some), Texts([last]));
  }

  lemma NoTexts()
    ensures Texts([]) == [] && Printed([]) == [] && Ink([]) == []
  {}

  /** What is printed is the text of the lines and white space, as long as no line is rewritten. */
  lemma {:induction false} PrintedInk(lines: seq<Line>)
    requires forall k | 0 <= k < |lines| :: lines[k].tail in {BREAK, CLOSE} && !Quoted(lines[k].text)
    ensures Ink(Printed(lines)) == Ink(Texts(lines))
  {
    hide Ink, Texts, Printed;
    if lines == [] {
      NoTexts();
    } else {
      var some, last := lines[..|lines| - 1], lines[|lines| - 1];
      assert lines == some + [last];
      PrintedInk(some);
      InkOfLine(lines);
      NoInk(last.tail);
    }
  }

  lemma {:induction false} StatementInk(lines: seq<Line>)
    requires EndsOnce(lines) && Rewritten(lines) == 0
    ensures Ink(Printed(lines)) == Ink(Texts(lines)) + ";"
  {
    hide Ink, Texts, Printed, Rewritten;
    var some, last := lines[..|lines| - 1], lines[|lines| - 1];
    assert lines == some + [last];
    RewrittenNone(lines);
    PrintedInk(some);
    InkOfLine(lines);
    EndInk();
  }

  /** How many lines are rewritten to create the table only if it is not there. */
  function Rewritten(lines: seq<Line>): (n: nat) {
    if lines == [] then 0 else Rewritten(lines[..|lines| - 1]) + if Quoted(lines[|lines| - 1].text) then 1 else 0
  }

  lemma {:induction false} RewrittenNone(lines: seq<Line>)
    ensures Rewritten(lines) == 0 <==> forall k | 0 <= k < |lines| :: !Quoted(lines[k].text)
  {
    hide Quoted;
    if lines != [] {
      RewrittenNone(lines[..|lines| - 1]);
    }
  }

  const ADDED := "IF NOT EXISTS "

  lemma {:induction false} InkAlone(s: string)
    requires forall k | 0 <= k < |s| :: !IsSpace(s[k])
    ensures Ink(s) == s
  {
    if s != [] {
      InkAlone(s[1..]);
    }
  }

  lemma AddedInk()
    ensures Ink(ADDED) == "IFNOTEXISTS"
  {
    hide Ink;
    var a, b, c := "IF", "NOT", "EXISTS";
    WordAndSpace(a);
    WordAndSpace(b);
    WordAndSpace(c);
    InkOfBoth((a + " ") + (b + " "), c + " ");
    InkOfBoth(a + " ", b + " ");
    assert (a + " ") + (b + " ") + (c + " ") == ADDED;
  }

  lemma {:induction false} WordAndSpace(s: string)
    requires forall k | 0 <= k < |s| :: !IsSpace(s[k])
    ensures Ink(s + " ") == s
  {
    InkAlone(s);
    NoInk(" ");
    InkOfBoth(s, " ");
  }

  /** A rewritten line has eleven more bytes than its text, not counting white space. */
  lemma {:induction false} LineInk(text: string, tail: string)
    ensures |Ink(SchemaLine(text, tail))| == |Ink(text)| + |Ink(tail)| + if Quoted(text) then 11 else 0
  {
    hide Ink;
    if Quoted(text) {
      var front, rest := text[..13], text[13..];
      assert front + rest == text;
      assert SchemaLine(text, tail) == front + ADDED + rest + tail;
      InkOfBoth(front + ADDED + rest, tail);
      InkOfBoth(front + ADDED, rest);
      InkOfBoth(front, ADDED);
      InkOfBoth(front, rest);
      AddedInk();
    } else {
      InkOfBoth(text, tail);
    }
  }

  /** So the printed bytes can be counted. */
  lemma {:induction false} PrintedLength(lines: seq<Line>)
    requires forall k | 0 <= k < |lines| :: lines[k].tail in {BREAK, CLOSE}
    ensures |Ink(Printed(lines))| == |Ink(Texts(lines))| + 11 * Rewritten(lines)
  {
    hide Ink, Texts, Printed, SchemaLine;
    if lines == [] {
      NoTexts();
    } else {
      var some, last := lines[..|lines| - 1], lines[|lines| - 1];
      PrintedLength(some);
      LengthOfLine(lines);
      NoInk(last.tail);
      assert lines == some + [last];
    }
  }

  lemma {:induction false} LengthOfLine(lines: seq<Line>)
    requires lines != []
    ensures var (last, more) := (lines[|lines| - 1], if Quoted(lines[|lines| - 1].text) then 11 else 0);
      && |Ink(Printed(lines))| == |Ink(Printed(Front(lines)))| + |Ink(last.text)| + |Ink(last.tail)| + more
      && |Ink(Texts(lines))| == |Ink(Texts(Front(lines)))| + |Ink(last.text)|
      && 11 * Rewritten(lines) == 11 * Rewritten(Front(lines)) + more
  {
    var some, last := Front(lines), lines[|lines| - 1];
    Unsnoc(lines);
    hide Ink, Texts, Printed, SchemaLine, Quoted;
    PrintedMore(some, last);
    InkOfBoth(Printed(some), SchemaLine(last.text, last.tail));
    LineInk(last.text, last.tail);
    TextsOfBoth(some, [last]);
    Empty([last]);
    LineKeeps(last, []);
    NoTexts();
    InkOfBoth(Texts(some), Texts([last]));
    LastOf(some, last);
  }

  /** The final semicolon is all that is added exactly if no line is rewritten. */
  lemma {:induction false} StatementKept(lines: seq<Line>)
    requires EndsOnce(lines)
    ensures |Ink(Printed(lines))| == |Ink(Texts(lines))| + 1 + 11 * Rewritten(lines)
    ensures Ink(Printed(lines)) == Ink(Texts(lines)) + ";" <==> forall k | 0 <= k < |lines| :: !Quoted(lines[k].text)
  {
    hide Ink, Texts, Printed, Quoted, Rewritten;
    var some, last := lines[..|lines| - 1], lines[|lines| - 1];
    assert lines == some + [last];
    PrintedLength(some);
    LengthOfLine(lines);
    EndInk();
    RewrittenNone(lines);
    if Rewritten(lines) == 0 {
      StatementInk(lines);
    }
  }

  lemma EndInk()
    ensures Ink(END) == ";"
  {
    assert END[1..] == "\n" && "\n"[1..] == "";
    assert Ink("\n") == "";
  }

  /** The lines a schema statement is printed on. */
  function SchemaLines(schema: string): (lines: seq<Line>) {
    var t := Tidied(schema);
    if |t| >= 79 then Layout(t, 0, 0, []) else [Line(t, END)]
  }

  /** No byte of a statement but white space is lost, added or moved; a long one is broken exactly
      where it should be. */
  lemma {:induction false} SchemaIsKept(schema: string)
    ensures var lines := SchemaLines(schema);
      && EndsOnce(lines) && Ink(Texts(lines)) == Ink(schema)
      && (|Tidied(schema)| >= 79 ==> WellBroken(lines, Tidied(schema), 0, 0))
      && (Ink(Printed(lines)) == Ink(schema) + ";" <==> forall k | 0 <= k < |lines| :: !Quoted(lines[k].text))
      && |Ink(Printed(lines))| == |Ink(schema)| + 1 + 11 * Rewritten(lines)
  {
    hide Layout, WellBroken, Ink, Tidied, Printed, Quoted, Rewritten;
    var t := Tidied(schema);
    TidiedKeeps(schema);
    if |t| >= 79 {
      LayoutKeeps(t, 0, 0, []);
      LayoutEndsOnce(t, 0, 0, []);
      LayoutBreaks(Layout(t, 0, 0, []), t, 0, 0);
      EndInk();
      NoInk([]);
    } else {
      LastKeeps(t);
      NoInk([]);
    }
    var lines := SchemaLines(schema);
    StatementKept(lines);
  }

  /** A short statement is printed on one line. */
  lemma {:induction false} ShortStatement(schema: string)
    requires |Tidied(schema)| < 79
    ensures SchemaLines(schema) == [Line(Tidied(schema), END)]
    ensures Printed(SchemaLines(schema)) == SchemaLine(Tidied(schema), END)
  {
    hide Tidied, SchemaLine;
    var line := Line(Tidied(schema), END);
    NoTexts();
    PrintedMore([], line);
    Empty([line]);
  }

  const CREATE := "CREATE TABLE "

  /** A line is printed as it stands exactly if it does not create a table whose name is in either kind of
      quotes; otherwise the words are put between. */
  lemma LineAsItStands(text: string, tail: string)
    ensures SchemaLine(text, tail) == text + tail <==>
      !("CREATE TABLE " <= text && |text| > 13 && (text[13] == '\'' || text[13] == '"'))
    ensures "CREATE TABLE '" <= text || "CREATE TABLE \"" <= text ==>
      SchemaLine(text, tail) == "CREATE TABLE IF NOT EXISTS " + text[13..] + tail
  {
    assert |text| >= 13 && "CREATE TABLE " <= text ==> text[..13] == "CREATE TABLE ";
    assert SchemaLine(text, tail) != text + tail <==> Quoted(text) by {
      if Quoted(text) {
        assert |SchemaLine(text, tail)| > |text + tail|;
      }
    }
    if "CREATE TABLE '" <= text || "CREATE TABLE \"" <= text {
      assert text[..14][..13] == text[..13] == "CREATE TABLE ";
      assert text[13] == text[..14][13];
    }
  }

  /** A short statement that creates a table is rewritten exactly if the name starts with a quote. */
  lemma {:induction false} RewrittenStatement(rest: string)
    requires Tidy(CREATE + rest) && 0 < |rest| < 66
    ensures Printed(SchemaLines(CREATE + rest)) ==
      if rest[0] == '\'' || rest[0] == '"' then "CREATE TABLE IF NOT EXISTS " + rest + ";\n" else "CREATE TABLE " + rest + ";\n"
    ensures Ink(Printed(SchemaLines(CREATE + rest))) == Ink(CREATE + rest) + ";" <==> rest[0] != '\'' && rest[0] != '"'
  {
    var schema := CREATE + rest;
    assert schema[..13] == CREATE && schema[13..] == rest;
    assert Quoted(schema) <==> rest[0] == '\'' || rest[0] == '"';
    hide Tidied, Tidy, Ink, Quoted, Printed, SchemaLines;
    TidyIsFixed(schema);
    ShortStatement(schema);
    SchemaIsKept(schema);
    assert SchemaLines(schema)[0].text == schema;
  }

  lemma RewriteIsReal()
    ensures Ink(Printed(SchemaLines(CREATE + "'a'(x)"))) != Ink(CREATE + "'a'(x)") + ";"
  {
    var rest := "'a'(x)";
    assert Tidy(CREATE + rest);
    hide *;
    RewrittenStatement(rest);
  }

  /** A row of a schema listing. Views and triggers are printed `asIs`. */
  method PrettyRow(schema: string, asIs: bool) returns (out: string)
    requires NUL !in schema
    ensures out == if asIs then schema + END else Printed(SchemaLines(schema))
  {
    if asIs {
      return schema + END;
    }
    var z := new char[|schema| + 1](i => if 0 <= i < |schema| then schema[i] else NUL);
    assert z[..] == schema + [NUL];
    var j := Squeeze(z, schema);
    ghost var t := Tidied(schema);
    TidiedKeeps(schema);
    InkIn(schema, NUL);
    InkIn(t, NUL);
    assert z[..|t| + 1] == t + [NUL];
    if j >= 79 {
      ghost var lines;
      out, lines := BreakLines("", z, t);
    } else {
      out := PrintSchemaLineN("", z, j, END);
    }
    assert "" + Printed(SchemaLines(schema)) == Printed(SchemaLines(schema));
  }
}
