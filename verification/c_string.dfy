/** C string literals: the printer of MODE_Tcl, and the dot-command reader that undoes it. */
module CString {
  import opened Seqs
  import opened Chars

  const NUL := '\0'
  const BACKSLASH := '\\'
  const DQUOTE := '"'

  /** A text over the bytes 1 to 255. */
  ghost predicate IsText(z: string) { forall i | 0 <= i < |z| :: 0 < z[i] as int < 256 }

  predicate IsPrint(c: char) { 32 <= c as int <= 126 }

  predicate IsOctal(c: char) { '0' <= c <= '7' }

  function OctalDigit(n: nat): (r: char)
    requires n < 8
  {
    "01234567"[n]
  }

  function OctalValue(c: char): (r: nat)
    requires IsOctal(c)
  {
    c as int - '0' as int
  }

  // ---- output_c_string() ----

  /** The bytes printed for one byte. */
  function Escape(c: char): (r: string) {
    if c == BACKSLASH then [BACKSLASH, BACKSLASH]
    else if c == DQUOTE then [BACKSLASH, DQUOTE]
    else if c == '\t' then "\\t"
    else if c == '\n' then "\\n"
    else if c == '\r' then "\\r"
    else if !IsPrint(c) then
      var b := c as int % 256;
      [BACKSLASH, OctalDigit(b / 64), OctalDigit(b / 8 % 8), OctalDigit(b % 8)]
    else [c]
  }

  function Escapes(z: string): (r: string) { if z == [] then [] else Escape(z[0]) + Escapes(z[1..]) }

  function CQuoted(z: string): (r: string) { [DQUOTE] + Escapes(z) + [DQUOTE] }

  method OutputChar(c: char) returns (text: string)
    ensures text == Escape(c)
  {
    if c == BACKSLASH {
      text := [c];
      text := text + [c];
    } else if c == DQUOTE {
      text := [BACKSLASH];
      text := text + [DQUOTE];
    } else if c == '\t' {
      text := [BACKSLASH];
      text := text + ['t'];
    } else if c == '\n' {
      text := [BACKSLASH];
      text := text + ['n'];
    } else if c == '\r' {
      text := [BACKSLASH];
      text := text + ['r'];
    } else if !IsPrint(c) {
      var b := c as int % 256;
      text := [BACKSLASH, OctalDigit(b / 64), OctalDigit(b / 8 % 8), OctalDigit(b % 8)];
    } else {
      text := [c];
    }
  }

  method OutputCString(out: string, z: string) returns (out': string)
    ensures out' == out + CQuoted(z)
  {
    hide Escape;
    out' := out + [DQUOTE];
    var i := 0;
    while i < |z|
      invariant 0 <= i <= |z|
      invariant out' + Escapes(z[i..]) == out + [DQUOTE] + Escapes(z)
    {
      var text := OutputChar(z[i]);
      assert z[i..][1..] == z[i + 1..];
      out' := out' + text;
      i := i + 1;
    }
    assert z[i..] == [];
    assert out' == out + [DQUOTE] + Escapes(z);
    out' := out' + [DQUOTE];
    assert out + CQuoted(z) == out + [DQUOTE] + Escapes(z) + [DQUOTE];
  }

  // ---- resolve_backslashes() ----

  /** The byte that an escape at the start of `s` stands for, and the length of the escape. */
  function Unescape(s: string): (r: (char, nat))
    requires |s| >= 2
    ensures 2 <= r.1 <= |s| && r.1 <= 4
  {
    var c := s[1];
    if c == 'a' then (7 as char, 2)
    else if c == 'b' then (8 as char, 2)
    else if c == 't' then ('\t', 2)
    else if c == 'n' then ('\n', 2)
    else if c == 'v' then (11 as char, 2)
    else if c == 'f' then (12 as char, 2)
    else if c == 'r' then ('\r', 2)
    else if c == DQUOTE || c == '\'' || c == BACKSLASH then (c, 2)
    else if IsOctal(c) then
      if |s| > 2 && IsOctal(s[2]) then
        if |s| > 3 && IsOctal(s[3]) then
          (((64 * OctalValue(c) + 8 * OctalValue(s[2]) + OctalValue(s[3])) % 256) as char, 4)
        else ((8 * OctalValue(c) + OctalValue(s[2])) as char, 3)
      else (OctalValue(c) as char, 2)
    else (c, 2)
  }

  function Resolve(s: string): (r: string)
    ensures |r| <= |s|
    decreases |s|
  {
    if s == [] then []
    else if s[0] == BACKSLASH && |s| > 1 then
      var (c, n) := Unescape(s);
      [c] + Resolve(s[n..])
    else [s[0]] + Resolve(s[1..])
  }

  lemma {:induction false} ResolvePlain(s: string, n: nat)
    requires n <= |s| && forall i | 0 <= i < n :: s[i] != BACKSLASH
    ensures Resolve(s) == s[..n] + Resolve(s[n..])
  {
    hide *;
    if n == 0 {
      WholeSlice(s);
      Empty(Resolve(s));
    } else {
      ResolveByte(s);
      ResolvePlain(s[1..], n - 1);
      FrontOfTail(s, n);
      Assoc([s[0]], s[1..][..n - 1], Resolve(s[n..]));
    }
  }

  lemma {:induction false} ResolveByte(s: string)
    requires s != [] && s[0] != BACKSLASH
    ensures Resolve(s) == [s[0]] + Resolve(s[1..])
  {
  }

  // ---- The printer's escapes and the reader ----

  lemma OctalRoundTrip(b: nat)
    requires b < 256
    ensures var x, y, w := OctalDigit(b / 64), OctalDigit(b / 8 % 8), OctalDigit(b % 8);
      && IsOctal(x) && IsOctal(y) && IsOctal(w)
      && 64 * OctalValue(x) + 8 * OctalValue(y) + OctalValue(w) == b
  {
    OctalDigitValue(b / 64);
    OctalDigitValue(b / 8 % 8);
    OctalDigitValue(b % 8);
  }

  lemma OctalDigitValue(n: nat)
    requires n < 8
    ensures IsOctal(OctalDigit(n)) && OctalValue(OctalDigit(n)) == n
  {}

  /** One escape is undone whatever follows it: a three-digit octal takes no fourth digit. */
  lemma {:induction false} ResolveEscape(c: char, t: string)
    requires c as int < 256
    ensures Resolve(Escape(c) + t) == [c] + Resolve(t)
  {
    hide OctalDigit, OctalValue, Resolve;
    if c == BACKSLASH || c == DQUOTE {
      ResolveTwo(c, c, t);
    } else if c == '\t' {
      ResolveTwo('t', c, t);
    } else if c == '\n' {
      ResolveTwo('n', c, t);
    } else if c == '\r' {
      ResolveTwo('r', c, t);
    } else if !IsPrint(c) {
      var x, y, w := OctalEscape(c);
      hide Escape;
      ResolveOctal(x, y, w, c, t);
    } else {
      ResolveOne(c, t);
    }
  }

  lemma OctalEscape(c: char) returns (x: char, y: char, w: char)
    requires c as int < 256 && !IsPrint(c) && c != '\t' && c != '\n' && c != '\r'
    ensures Escape(c) == [BACKSLASH, x, y, w]
    ensures IsOctal(x) && IsOctal(y) && IsOctal(w) && 64 * OctalValue(x) + 8 * OctalValue(y) + OctalValue(w) == c as int
  {
    var b := c as int;
    x, y, w := OctalDigit(b / 64), OctalDigit(b / 8 % 8), OctalDigit(b % 8);
    OctalRoundTrip(b);
    EscapeOctal(c);
    hide *;
  }

  lemma EscapeOctal(c: char)
    requires c as int < 256 && !IsPrint(c) && c != '\t' && c != '\n' && c != '\r'
    ensures var b := c as int; Escape(c) == [BACKSLASH, OctalDigit(b / 64), OctalDigit(b / 8 % 8), OctalDigit(b % 8)]
  {
    hide OctalDigit;
    assert c as int % 256 == c as int;
  }

  lemma {:induction false} ResolveOne(c: char, t: string)
    requires c != BACKSLASH
    ensures Resolve([c] + t) == [c] + Resolve(t)
  {
    assert ([c] + t)[1..] == t;
  }

  lemma {:induction false} ResolveTwo(e: char, c: char, t: string)
    requires (e == c && (c == BACKSLASH || c == DQUOTE)) || (e == 't' && c == '\t') || (e == 'n' && c == '\n') || (e == 'r' && c == '\r')
    ensures Resolve([BACKSLASH, e] + t) == [c] + Resolve(t)
  {
    var s := [BACKSLASH, e] + t;
    assert s[0] == BACKSLASH && s[1] == e && s[2..] == t;
    hide OctalValue;
    assert Unescape(s) == (c, 2);
    hide Unescape;
  }

  lemma {:induction false} ResolveOctal(x: char, y: char, w: char, c: char, t: string)
    requires IsOctal(x) && IsOctal(y) && IsOctal(w)
    requires 64 * OctalValue(x) + 8 * OctalValue(y) + OctalValue(w) == c as int < 256
    ensures Resolve([BACKSLASH, x, y, w] + t) == [c] + Resolve(t)
  {
    var s := [BACKSLASH, x, y, w] + t;
    assert s[0] == BACKSLASH && s[1] == x && s[2] == y && s[3] == w && s[4..] == t;
    assert Unescape(s) == (c, 4);
  }

  lemma {:induction false} ResolveEscapes(z: string)
    requires forall i | 0 <= i < |z| :: z[i] as int < 256
    ensures Resolve(Escapes(z)) == z
  {
    if z != [] {
      ResolveEscape(z[0], Escapes(z[1..]));
      ResolveEscapes(z[1..]);
    }
  }

  // ---- The escape that is documented but missing ----

  /** The escape at the start of `s` as documented: `\s` is a space. */
  function DocumentedUnescape(s: string): (r: (char, nat))
    requires |s| > 1 && s[0] == BACKSLASH
    ensures 2 <= r.1 <= |s|
  {
    if s[1] == 's' then (' ', 2) else Unescape(s)
  }

  function DocumentedResolve(s: string): (r: string)
    decreases |s|
  {
    if s == [] then []
    else if s[0] == BACKSLASH && |s| > 1 then
      var (c, n) := DocumentedUnescape(s);
      [c] + DocumentedResolve(s[n..])
    else [s[0]] + DocumentedResolve(s[1..])
  }

  /** One of the escapes of `s` is `\s`. */
  predicate EscapesSpace(s: string)
    decreases |s|
  {
    s != [] &&
    if s[0] == BACKSLASH && |s| > 1 then s[1] == 's' || EscapesSpace(s[Unescape(s).1..])
    else EscapesSpace(s[1..])
  }

  /** The code resolves a text as documented exactly if none of its escapes is `\s`. */
  lemma {:induction false} ResolvedAsDocumented(s: string)
    ensures Resolve(s) == DocumentedResolve(s) <==> !EscapesSpace(s)
    decreases |s|
  {
    if s != [] {
      var escaped := s[0] == BACKSLASH && |s| > 1;
      var (c, n) := if escaped then Unescape(s) else (s[0], 1);
      var d := if escaped && s[1] == 's' then ' ' else c;
      assert escaped && s[1] == 's' ==> c == 's' && n == 2;
      ResolvedAsDocumented(s[n..]);
      assert Resolve(s) == [c] + Resolve(s[n..]) && DocumentedResolve(s) == [d] + DocumentedResolve(s[n..]);
      SameParts(c, Resolve(s[n..]), d, DocumentedResolve(s[n..]));
    }
  }

  lemma SameParts(c: char, s: string, d: char, t: string)
    ensures [c] + s == [d] + t <==> c == d && s == t
  {
    FirstOf(c, s);
    FirstOf(d, t);
  }

  // ---- The tokens of a dot-command line ----

  /** The C string at the start of `s`. */
  function CText(s: string): (r: string) { Until(s, NUL) }

  /** Where a quoted argument ends: at the delimiter, or at the end of the line. */
  function QuotedEnd(s: string, delim: char): (k: nat)
    ensures k <= |s| && (k < |s| ==> s[k] == delim)
    decreases |s|
  {
    if s == [] || s[0] == delim then 0
    else if s[0] == BACKSLASH && delim == DQUOTE && |s| > 1 then 2 + QuotedEnd(s[2..], delim)
    else 1 + QuotedEnd(s[1..], delim)
  }

  function WordEnd(s: string): (k: nat)
    ensures k <= |s| && (k < |s| ==> IsSpace(s[k]))
    ensures s != [] && !IsSpace(s[0]) ==> k > 0
  {
    if s == [] || IsSpace(s[0]) then 0 else 1 + WordEnd(s[1..])
  }

  predicate IsQuote(c: char) { c == '\'' || c == DQUOTE }

  const MAX_ARGS := 50

  /** The first argument of `t`, which starts with no space, and the rest of the line. */
  function FirstArg(t: string): (r: (string, string))
    requires t != [] && !IsSpace(t[0])
    ensures |r.1| < |t|
  {
    if IsQuote(t[0]) then
      var u := t[1..];
      var k := QuotedEnd(u, t[0]);
      (if t[0] == DQUOTE then CText(Resolve(u[..k])) else u[..k], if k < |u| then u[k + 1..] else [])
    else
      var k := WordEnd(t);
      (CText(Resolve(t[..k])), if k < |t| then t[k + 1..] else [])
  }

  lemma {:induction false} SkipSpacesStops(s: string)
    ensures SkipSpaces(s) != [] ==> !IsSpace(SkipSpaces(s)[0])
  {
    if s != [] && IsSpace(s[0]) {
      SkipSpacesStops(s[1..]);
    }
  }

  /** The arguments of the rest `s` of a line on which `n` have been found. */
  function Tokens(s: string, n: nat): (r: seq<string>)
    decreases |s|
  {
    var t := SkipSpaces(s);
    SkipSpacesStops(s);
    if t == [] || n >= MAX_ARGS then []
    else
      var (arg, rest) := FirstArg(t);
      [arg] + Tokens(rest, n + 1)
  }

  // ---- A row of MODE_Tcl read back ----

  /** The row as MODE_Tcl prints it. */
  function TclRow(row: seq<string>, colSep: string, rowSep: string): (r: string) {
    if row == [] then rowSep
    else CQuoted(row[0]) + (if |row| == 1 then [] else colSep) + TclRow(row[1..], colSep, rowSep)
  }

  method WriteTclRow(row: seq<string>, colSep: string, rowSep: string) returns (out: string)
    ensures out == TclRow(row, colSep, rowSep)
  {
    hide CQuoted, TclRow;
    out := "";
    var i := 0;
    assert row[0..] == row;
    while i < |row|
      invariant 0 <= i <= |row|
      invariant out + TclRow(row[i..], colSep, rowSep) == TclRow(row, colSep, rowSep)
    {
      ghost var before := out;
      TclRowFrom(row, i, colSep, rowSep);
      out := OutputCString(out, row[i]);
      if i < |row| - 1 {
        out := out + colSep;
        Assoc(before, CQuoted(row[i]), colSep);
      }
      i := i + 1;
      Assoc(before, CQuoted(row[i - 1]) + (if i == |row| then [] else colSep), TclRow(row[i..], colSep, rowSep));
    }
    TclRowFrom(row, i, colSep, rowSep);
    out := out + rowSep;
  }

  lemma {:induction false} TclRowFrom(row: seq<string>, i: nat, colSep: string, rowSep: string)
    requires i <= |row|
    ensures TclRow(row[i..], colSep, rowSep) == if i == |row| then rowSep
      else CQuoted(row[i]) + (if i + 1 == |row| then [] else colSep) + TclRow(row[i + 1..], colSep, rowSep)
  {
    hide CQuoted;
    if i < |row| {
      assert row[i..][1..] == row[i + 1..];
    }
  }

  /** The separator stands between two values, and the row separator behind the last. */
  lemma {:induction false} TclRowGrows(row: seq<string>, z: string, colSep: string, rowSep: string)
    ensures TclRow(row + [z], colSep, rowSep) ==
      if row == [] then CQuoted(z) + rowSep else TclRow(row, colSep, colSep) + CQuoted(z) + rowSep
  {
    hide CQuoted;
    if row == [] {
      assert row + [z] == [z] && [z][1..] == [];
      Empty(CQuoted(z));
    } else {
      TailOfBoth(row, [z]);
      TclRowGrows(row[1..], z, colSep, rowSep);
      Empty(CQuoted(row[0]));
      Assoc(CQuoted(row[0]) + colSep, TclRow(row[1..], colSep, colSep), CQuoted(z));
      Assoc(CQuoted(row[0]) + colSep, TclRow(row[1..], colSep, colSep) + CQuoted(z), rowSep);
      Assoc(CQuoted(row[0]) + colSep, CQuoted(z), rowSep);
    }
  }

  lemma {:induction false} QuotedEndOctal(x: char, y: char, w: char, t: string)
    requires IsOctal(y) && IsOctal(w)
    ensures QuotedEnd([BACKSLASH, x, y, w] + t, DQUOTE) == 4 + QuotedEnd(t, DQUOTE)
  {
    var s := [BACKSLASH, x, y, w] + t;
    assert s[2..] == [y, w] + t && ([y, w] + t)[1..] == [w] + t && ([w] + t)[1..] == t;
    assert QuotedEnd(s, DQUOTE) == 2 + QuotedEnd([y, w] + t, DQUOTE);
  }

  /** The escapes contain no bare double quote: the scan passes over each of them. */
  lemma {:induction false} QuotedEndEscape(c: char, t: string)
    requires c as int < 256
    ensures QuotedEnd(Escape(c) + t, DQUOTE) == |Escape(c)| + QuotedEnd(t, DQUOTE)
  {
    var s := Escape(c) + t;
    if c != BACKSLASH && c != DQUOTE && c != '\t' && c != '\n' && c != '\r' && !IsPrint(c) {
      var x, y, w := OctalEscape(c);
      hide Escape;
      QuotedEndOctal(x, y, w, t);
    } else if |Escape(c)| == 2 {
      assert s[0] == BACKSLASH && s[2..] == t;
    } else {
      assert s[1..] == t;
    }
  }

  lemma {:induction false} QuotedEndEscapes(z: string, t: string)
    requires forall i | 0 <= i < |z| :: z[i] as int < 256
    ensures QuotedEnd(Escapes(z) + ([DQUOTE] + t), DQUOTE) == |Escapes(z)|
  {
    hide Escape;
    if z == [] {
      assert Escapes(z) + ([DQUOTE] + t) == [DQUOTE] + t;
    } else {
      var u := Escapes(z[1..]) + ([DQUOTE] + t);
      QuotedEndEscape(z[0], u);
      QuotedEndEscapes(z[1..], t);
      assert Escapes(z) + ([DQUOTE] + t) == Escape(z[0]) + u;
    }
  }

  /** A printed text is read as one argument, and is that text. */
  lemma FirstArgOfQuoted(z: string, t: string)
    requires IsText(z)
    ensures FirstArg(CQuoted(z) + t) == (z, t)
  {
    hide Escapes, Resolve, QuotedEnd;
    var s := CQuoted(z) + t;
    assert s[1..] == Escapes(z) + ([DQUOTE] + t);
    QuotedEndEscapes(z, t);
    ResolveEscapes(z);
    UntilNone(z, NUL);
    var u, k := s[1..], |Escapes(z)|;
    assert u[..k] == Escapes(z) && u[k + 1..] == t;
  }

  lemma {:induction false} SkipSpacesOver(w: string, t: string)
    requires forall i | 0 <= i < |w| :: IsSpace(w[i])
    requires t == [] || !IsSpace(t[0])
    ensures SkipSpaces(w + t) == t
  {
    if w == [] {
      assert w + t == t;
    } else {
      assert (w + t)[1..] == w[1..] + t;
      SkipSpacesOver(w[1..], t);
    }
  }

  lemma {:induction false} TokensStep(w: string, s: string, n: nat, arg: string, t: string)
    requires AllSpace(w) && n < MAX_ARGS && s != [] && !IsSpace(s[0]) && FirstArg(s) == (arg, t)
    ensures Tokens(w + s, n) == [arg] + Tokens(t, n + 1)
  {
    hide FirstArg, SkipSpaces;
    SkipSpacesOver(w, s);
  }

  lemma {:induction false} TokensEnd(s: string, n: nat)
    requires n >= MAX_ARGS || AllSpace(s)
    ensures Tokens(s, n) == []
  {
    hide FirstArg;
    if AllSpace(s) {
      SkipSpacesOver(s, []);
      assert s + [] == s;
    }
  }

  /** A row of texts printed by MODE_Tcl and used as a dot-command line gives its values back, up to
      the size of the argument array, whatever the spaces that separate them. */
  lemma {:induction false} TclRowTokens(row: seq<string>, colSep: string, rowSep: string, w: string, n: nat)
    requires AllSpace(colSep) && AllSpace(rowSep) && AllSpace(w) && n <= 50
    requires forall i | 0 <= i < |row| :: IsText(row[i])
    ensures Tokens(w + TclRow(row, colSep, rowSep), n) == if |row| <= 50 - n then row else row[..50 - n]
    decreases |row|
  {
    hide CQuoted, FirstArg, Tokens;
    if row == [] {
      TokensEnd(w + rowSep, n);
    } else if n == MAX_ARGS {
      TokensEnd(w + TclRow(row, colSep, rowSep), n);
    } else {
      var sep := if |row| == 1 then [] else colSep;
      var t := sep + TclRow(row[1..], colSep, rowSep);
      var s := CQuoted(row[0]) + t;
      assert TclRow(row, colSep, rowSep) == s;
      StartsQuoted(row[0], t);
      FirstArgOfQuoted(row[0], t);
      TokensStep(w, s, n, row[0], t);
      TclRowTokens(row[1..], colSep, rowSep, sep, n + 1);
      assert row == [row[0]] + row[1..];
    }
  }

  lemma StartsQuoted(z: string, t: string)
    ensures CQuoted(z) + t != [] && (CQuoted(z) + t)[0] == DQUOTE
  {}
}
