/** resolve_backslashes() and the tokenizer of do_meta_command(), in place on the line buffer. */
module DotCommand {
  import opened Seqs
  import opened Chars
  import opened CString

  /** `a` holds the C string `t` at index `p`. */
  ghost predicate Holds(a: seq<char>, p: nat, t: string) {
    p + |t| < |a| && a[p..p + |t|] == t && a[p + |t|] == NUL && NUL !in t
  }

  lemma {:induction false} CTextHeld(a: seq<char>, p: nat, r: string)
    requires p + |r| < |a| && a[p..p + |r|] == r && (NUL in r || a[p + |r|] == NUL)
    ensures Holds(a, p, CText(r)) && |CText(r)| <= |r|
    decreases |r|
  {
    assert CText(r) == if r == [] || r[0] == NUL then [] else [r[0]] + CText(r[1..]);
    assert r != [] ==> a[p] == a[p..p + |r|][0];
    if r != [] && r[0] != NUL {
      assert a[p + 1..p + 1 + |r[1..]|] == r[1..];
      hide CText, Holds;
      CTextHeld(a, p + 1, r[1..]);
      HoldsMore(a, p, CText(r[1..]));
    } else {
      hide CText;
      assert a[p..p] == [];
    }
  }

  lemma HoldsMore(a: seq<char>, p: nat, t: string)
    requires Holds(a, p + 1, t) && a[p] != NUL
    ensures Holds(a, p, [a[p]] + t)
  {
    assert a[p..p + 1 + |t|] == [a[p]] + a[p + 1..p + 1 + |t|];
  }

  /** Decodes the escape at index `q`; `e` is the end of the C string. */
  method DecodeAt(a: array<char>, q: nat, ghost e: nat) returns (c: char, i: nat)
    requires q + 1 < e < a.Length && a[e] == NUL && forall k | q <= k < e :: a[k] != NUL
    ensures (c, i + 1 - q) == Unescape(a[q..e]) && q < i < e
  {
    i := q + 1;
    c := a[i];
    if c == 'a' {
      c := 7 as char;
    } else if c == 'b' {
      c := 8 as char;
    } else if c == 't' {
      c := '\t';
    } else if c == 'n' {
      c := '\n';
    } else if c == 'v' {
      c := 11 as char;
    } else if c == 'f' {
      c := 12 as char;
    } else if c == 'r' {
      c := '\r';
    } else if c == DQUOTE || c == '\'' || c == BACKSLASH {
    } else if IsOctal(c) {
      var v := OctalValue(c);
      if IsOctal(a[i + 1]) {
        i := i + 1;
        v := v * 8 + OctalValue(a[i]);
        if IsOctal(a[i + 1]) {
          i := i + 1;
          v := v * 8 + OctalValue(a[i]);
        }
      }
      c := (v % 256) as char;
    }
  }

  lemma {:induction false} ResolveFirst(s: string)
    requires s != []
    ensures var (c, n) := if s[0] == BACKSLASH && |s| > 1 then Unescape(s) else (s[0], 1);
      Resolve(s) == [c] + Resolve(s[n..])
  {}

  lemma ResolveNothing()
    ensures Resolve([]) == []
  {}

  /** The byte that is read at `q`, with an escape resolved, and where it ends. */
  method NextByte(a: array<char>, q: nat, ghost e: nat) returns (c: char, i: nat)
    requires q < e < a.Length && a[e] == NUL && forall k | q <= k < e :: a[k] != NUL
    ensures q <= i < e
    ensures var s := a[q..e];
      (c, i + 1 - q) == if s[0] == BACKSLASH && |s| > 1 then Unescape(s) else (s[0], 1)
  {
    hide Unescape;
    c, i := a[q], q;
    if c == BACKSLASH && a[q + 1] != NUL {
      c, i := DecodeAt(a, q, e);
    }
  }

  /** The compacting loop. The write index `j` never passes the read index `i`. */
  method Compact(a: array<char>, p: nat, ghost e: nat)
    requires p <= e < a.Length && a[e] == NUL && forall k | p <= k < e :: a[k] != NUL
    modifies a
    ensures var r := Resolve(old(a[p..e]));
      a[p..p + |r|] == r && a[p + |r|] == NUL
    ensures forall k | 0 <= k < a.Length && !(p <= k < e) :: a[k] == old(a[k])
  {
    hide Unescape, Resolve;
    var i, j := p, p;
    while a[i] != NUL
      invariant p <= j <= i <= e
      invariant forall k | 0 <= k < a.Length && !(p <= k < j) :: a[k] == old(a[k])
      invariant a[p..j] + Resolve(old(a[i..e])) == Resolve(old(a[p..e]))
      decreases e - i
    {
      ghost var i0, rest, done := i, old(a[i..e]), a[p..j];
      assert a[i..e] == rest;
      ResolveFirst(rest);
      var c;
      c, i := NextByte(a, i, e);
      assert rest[i + 1 - i0..] == old(a[i + 1..e]);
      a[j] := c;
      assert a[p..j + 1] == done + [c];
      Assoc(done, [c], Resolve(old(a[i + 1..e])));
      i, j := i + 1, j + 1;
    }
    assert old(a[i..e]) == [];
    ResolveNothing();
    if j < i {
      a[j] := NUL;
    }
  }

  /** Rewrites the C string at `z`, which ends at `e`. */
  method ResolveBackslashes(a: array<char>, z: nat, ghost e: nat)
    requires z <= e < a.Length && a[e] == NUL && forall k | z <= k < e :: a[k] != NUL
    modifies a
    ensures var r := Resolve(old(a[z..e]));
      a[z..z + |r|] == r && a[z + |r|] == NUL
    ensures forall k | 0 <= k < a.Length && !(z <= k < e) :: a[k] == old(a[k])
  {
    hide Resolve;
    var p := z;
    while a[p] != NUL && a[p] != BACKSLASH
      invariant z <= p <= e
      invariant forall k | z <= k < p :: a[k] != BACKSLASH
      decreases e - p
    {
      p := p + 1;
    }
    ghost var s := a[z..e];
    ResolvePlain(s, p - z);
    assert s[p - z..] == a[p..e] && s[..p - z] == a[z..p];
    ghost var r := Resolve(a[p..e]);
    Compact(a, p, e);
    assert a[z..p + |r|] == old(a[z..p]) + r;
  }

  // ---- The tokenizer ----

  lemma SkipSpacesAt(s: seq<char>, h: nat, k: nat, e: nat)
    requires h <= k <= e <= |s| && forall i | h <= i < k :: IsSpace(s[i])
    requires k == e || !IsSpace(s[k])
    ensures SkipSpaces(s[h..e]) == s[k..e]
  {
    var t := s[k..e];
    assert s[h..e] == s[h..k] + t;
    SkipSpacesOver(s[h..k], t);
  }

  /** The scan for the end of a quoted argument. */
  method ScanQuoted(a: array<char>, h0: nat, delim: char, ghost e: nat) returns (h: nat)
    requires h0 <= e < a.Length && a[e] == NUL && IsQuote(delim) && forall k | h0 <= k < e :: a[k] != NUL
    ensures h0 <= h <= e && h == h0 + QuotedEnd(a[h0..e], delim)
    ensures h < e <==> a[h] == delim
  {
    hide QuotedEnd;
    h := h0;
    while a[h] != NUL && a[h] != delim
      invariant h0 <= h <= e
      invariant h + QuotedEnd(a[h..e], delim) == h0 + QuotedEnd(a[h0..e], delim)
      decreases e - h
    {
      QuotedEndAt(a[..], h, delim, e);
      if a[h] == BACKSLASH && delim == DQUOTE && a[h + 1] != NUL {
        h := h + 1;
      }
      h := h + 1;
    }
    QuotedEndAt(a[..], h, delim, e);
  }

  lemma {:induction false} QuotedEndAt(a: seq<char>, h: nat, delim: char, e: nat)
    requires h <= e < |a| && a[e] == NUL && (forall k | h <= k < e :: a[k] != NUL) && delim != NUL
    ensures var k := QuotedEnd(a[h..e], delim);
      if a[h] == NUL || a[h] == delim then k == 0
      else if a[h] == BACKSLASH && delim == DQUOTE && a[h + 1] != NUL then h + 2 <= e && k == 2 + QuotedEnd(a[h + 2..e], delim)
      else h < e && k == 1 + QuotedEnd(a[h + 1..e], delim)
  {
    var s := a[h..e];
    if h + 1 < e {
      assert s[2..] == a[h + 2..e] && s[1..] == a[h + 1..e];
    } else if h < e {
      assert s[1..] == a[h + 1..e];
    }
  }

  method ScanWord(a: array<char>, h0: nat, ghost e: nat) returns (h: nat)
    requires h0 <= e < a.Length && a[e] == NUL && forall k | h0 <= k < e :: a[k] != NUL
    ensures h0 <= h <= e && h == h0 + WordEnd(a[h0..e])
    ensures h < e <==> a[h] != NUL
  {
    h := h0;
    while a[h] != NUL && !IsSpace(a[h])
      invariant h0 <= h <= e
      invariant h + WordEnd(a[h..e]) == h0 + WordEnd(a[h0..e])
      decreases e - h
    {
      assert a[h..e][1..] == a[h + 1..e];
      h := h + 1;
    }
  }

  /** A quoted argument: its index in the buffer and where the scan goes on. */
  method TakeQuoted(a: array<char>, h0: nat, ghost e: nat) returns (start: nat, h: nat)
    requires h0 < e < a.Length && a[e] == NUL && IsQuote(a[h0]) && forall k | h0 <= k < e :: a[k] != NUL
    modifies a
    ensures h0 < h <= e && a[..h0] == old(a[..h0]) && forall k | h <= k < a.Length :: a[k] == old(a[k])
    ensures var u := old(a[h0 + 1..e]); var k := QuotedEnd(u, old(a[h0]));
      var arg := if old(a[h0]) == DQUOTE then CText(Resolve(u[..k])) else u[..k];
      && Holds(a[..], start, arg) && (h < e ==> start + |arg| < h)
      && old(a[h..e]) == if k < |u| then u[k + 1..] else []
  {
    hide QuotedEnd, Resolve, CText;
    var delim := a[h0];
    h := h0 + 1;
    start := h;
    ghost var u := a[start..e];
    h := ScanQuoted(a, h, delim, e);
    ghost var end := h;
    assert u[..end - start] == a[start..end];
    if a[h] == delim {
      a[h] := NUL;
      h := h + 1;
      assert u[end - start + 1..] == old(a[h..e]);
    }
    assert a[start..end] == u[..end - start];
    if delim == DQUOTE {
      ResolveBackslashes(a, start, end);
      CTextHeld(a[..], start, Resolve(u[..end - start]));
    }
  }

  method TakeWord(a: array<char>, h0: nat, ghost e: nat) returns (start: nat, h: nat)
    requires h0 < e < a.Length && a[e] == NUL && !IsSpace(a[h0]) && forall k | h0 <= k < e :: a[k] != NUL
    modifies a
    ensures h0 < h <= e && a[..h0] == old(a[..h0]) && forall k | h <= k < a.Length :: a[k] == old(a[k])
    ensures var t := old(a[h0..e]); var k := WordEnd(t);
      && Holds(a[..], start, CText(Resolve(t[..k]))) && (h < e ==> start + |CText(Resolve(t[..k]))| < h)
      && old(a[h..e]) == if k < |t| then t[k + 1..] else []
  {
    hide WordEnd, Resolve, CText;
    ghost var t := a[h0..e];
    start := h0;
    h := ScanWord(a, h0, e);
    ghost var end := h;
    assert t[..end - start] == a[start..end];
    if a[h] != NUL {
      a[h] := NUL;
      h := h + 1;
      assert t[end - start + 1..] == old(a[h..e]);
    }
    assert a[start..end] == t[..end - start];
    ResolveBackslashes(a, start, end);
    CTextHeld(a[..], start, Resolve(t[..end - start]));
  }

  /** The argument found when the scan stands on the byte `h0`, which is no space. */
  method TakeArg(a: array<char>, h0: nat, ghost e: nat) returns (start: nat, h: nat)
    requires h0 < e < a.Length && a[e] == NUL && !IsSpace(a[h0]) && forall k | h0 <= k < e :: a[k] != NUL
    modifies a
    ensures h0 < h <= e && a[..h0] == old(a[..h0]) && forall k | h <= k < a.Length :: a[k] == old(a[k])
    ensures var (arg, rest) := FirstArg(old(a[h0..e]));
      Holds(a[..], start, arg) && (h < e ==> start + |arg| < h) && rest == old(a[h..e])
  {
    hide QuotedEnd, WordEnd, Resolve, CText, Holds;
    ghost var t := a[h0..e];
    assert t[0] == a[h0] && t[1..] == a[h0 + 1..e];
    if IsQuote(a[h0]) {
      start, h := TakeQuoted(a, h0, e);
    } else {
      start, h := TakeWord(a, h0, e);
    }
  }

  /** The arguments found so far are in the buffer, before the byte where the scan stands. */
  ghost predicate Found(a: seq<char>, args: seq<nat>, toks: seq<string>, h: nat, e: nat) {
    && |args| <= |toks|
    && forall k | 0 <= k < |args| :: Holds(a, args[k], toks[k]) && (h < e ==> args[k] + |toks[k]| < h)
  }

  lemma FoundMore(a: seq<char>, a': seq<char>, args: seq<nat>, toks: seq<string>, h0: nat, h: nat, e: nat, start: nat)
    requires Found(a, args, toks, h0, e) && |args| < |toks|
    requires |a| == |a'| && h0 < e < |a| && h0 < h && a'[..h0] == a[..h0]
    requires Holds(a', start, toks[|args|]) && (h < e ==> start + |toks[|args|]| < h)
    ensures Found(a', args + [start], toks, h, e)
  {
    forall k | 0 <= k < |args| ensures Holds(a', args[k], toks[k]) && args[k] + |toks[k]| < h {
      HoldsBefore(a, a', args[k], toks[k], h0);
    }
  }

  lemma HoldsBefore(a: seq<char>, a': seq<char>, p: nat, t: string, h0: nat)
    requires Holds(a, p, t) && p + |t| < h0 < |a| && |a| == |a'| && a'[..h0] == a[..h0]
    ensures Holds(a', p, t)
  {
    forall k | 0 <= k < h0 ensures a'[k] == a[k] {
      assert a'[k] == a'[..h0][k];
    }
    forall k | 0 <= k < |t| ensures a'[p + k] == t[k] {
      assert a[p..p + |t|][k] == a[p + k];
    }
    assert a'[p..p + |t|] == t;
  }

  lemma TokensTake(s: string, n: nat, t: string)
    requires t == SkipSpaces(s)
    ensures t == [] || n >= MAX_ARGS ==> Tokens(s, n) == []
    ensures t != [] && n < MAX_ARGS ==> !IsSpace(t[0]) && Tokens(s, n) == [FirstArg(t).0] + Tokens(FirstArg(t).1, n + 1)
  {
    hide FirstArg;
    SkipSpacesStops(s);
  }

  /** The parse of a dot-command line, which starts with the dot and ends at `e`: the indices put
      into azArg[]. */
  method Tokenize(a: array<char>, ghost e: nat) returns (args: seq<nat>)
    requires 1 <= e < a.Length && a[e] == NUL && forall k | 0 <= k < e :: a[k] != NUL
    modifies a
    ensures var toks := Tokens(old(a[1..e]), 0);
      |args| == |toks| && forall k | 0 <= k < |args| :: Holds(a[..], args[k], toks[k])
  {
    hide FirstArg, Tokens, Holds, SkipSpaces;
    ghost var toks := Tokens(a[1..e], 0);
    var h := 1;
    args := [];
    while a[h] != NUL && |args| < MAX_ARGS
      invariant 1 <= h <= e && |args| <= MAX_ARGS && forall k | h <= k < a.Length :: a[k] == old(a[k])
      invariant Found(a[..], args, toks, h, e)
      invariant toks[|args|..] == Tokens(old(a[h..e]), |args|)
      decreases e - h
    {
      var h0 := h;
      while IsSpace(a[h])
        invariant h0 <= h <= e && forall k | h0 <= k < h :: IsSpace(a[k])
        decreases e - h
      {
        h := h + 1;
      }
      SkipSpacesAt(old(a[..]), h0, h, e);
      assert old(a[h0..e]) == old(a[..])[h0..e] && old(a[h..e]) == old(a[..])[h..e];
      TokensTake(old(a[h0..e]), |args|, old(a[h..e]));
      if a[h] == NUL {
        break;
      }
      ghost var was, n := a[..], |args|;
      assert a[h..e] == old(a[h..e]);
      var start, h' := TakeArg(a, h, e);
      assert was[h'..e] == old(a[h'..e]);
      assert toks[n..][0] == toks[n] && toks[n..][1..] == toks[n + 1..];
      FoundMore(was, a[..], args, toks, h, h', e, start);
      args, h := args + [start], h';
    }
    TokensEnd(if h == e then [] else old(a[h..e]), |args|);
    assert h == e ==> old(a[h..e]) == [];
  }

  /** A row printed by MODE_Tcl behind a dot, parsed as a dot-command line: the argument strings are
      the values of the row. */
  method RoundTrip(row: seq<string>, colSep: string, rowSep: string) returns (a: array<char>, args: seq<nat>)
    requires AllSpace(colSep) && AllSpace(rowSep) && |row| <= 50
    requires forall i | 0 <= i < |row| :: IsText(row[i])
    ensures |args| == |row| && forall k | 0 <= k < |args| :: Holds(a[..], args[k], row[k])
  {
    hide Holds, Tokens;
    var text := WriteTclRow(row, colSep, rowSep);
    TclRowHasNoNul(row, colSep, rowSep);
    var e := |text| + 1;
    a := new char[e + 1](i requires 0 <= i < e + 1 => if i == 0 then '.' else if i == e then NUL else text[i - 1]);
    assert a[1..e] == text;
    forall k | 0 <= k < e ensures a[k] != NUL {
      if k > 0 {
        assert a[k] == text[k - 1];
      }
    }
    TclRowTokens(row, colSep, rowSep, [], 0);
    assert [] + text == text;
    args := Tokenize(a, e);
  }

  lemma {:induction false} EscapesHaveNoNul(z: string)
    ensures NUL !in Escapes(z)
  {
    if z != [] {
      EscapeHasNoNul(z[0]);
      EscapesHaveNoNul(z[1..]);
    }
  }

  lemma EscapeHasNoNul(c: char)
    ensures NUL !in Escape(c)
  {}

  lemma {:induction false} TclRowHasNoNul(row: seq<string>, colSep: string, rowSep: string)
    requires AllSpace(colSep) && AllSpace(rowSep)
    ensures NUL !in TclRow(row, colSep, rowSep)
  {
    if row != [] {
      EscapesHaveNoNul(row[0]);
      TclRowHasNoNul(row[1..], colSep, rowSep);
    }
  }
}
