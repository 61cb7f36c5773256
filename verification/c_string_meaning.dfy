/** What printed texts, escapes and arguments of dot-commands look like, in bytes. */
module CStringMeaning {
  import opened Seqs
  import opened Chars
  import opened CString

  // ---- Printing ----

  /** Stands for itself between the quotes: printable ASCII but the quote and the backslash. */
  predicate Bare(c: char) { 32 <= c as int <= 126 && c as int != 34 && c as int != 92 }

  /** The value of three octal digits. */
  function Octal(x: char, y: char, w: char): (n: int) {
    64 * (x as int - 48) + 8 * (y as int - 48) + (w as int - 48)
  }

  /** Every byte that does not stand for itself is printed as a backslash and one of five bytes, or the
      three octal digits of its value. */
  lemma ByteIsPrinted(c: char)
    requires c as int < 256
    ensures Bare(c) ==> Escape(c) == [c]
    ensures c as int == 92 ==> Escape(c) == "\\\\"
    ensures c as int == 34 ==> Escape(c) == "\\\""
    ensures c as int == 9 ==> Escape(c) == "\\t"
    ensures c as int == 10 ==> Escape(c) == "\\n"
    ensures c as int == 13 ==> Escape(c) == "\\r"
    ensures !Bare(c) && c as int !in {92, 34, 9, 10, 13} ==>
      && |Escape(c)| == 4 && Escape(c)[0] as int == 92 && Octal(Escape(c)[1], Escape(c)[2], Escape(c)[3]) == c as int
      && forall k | 1 <= k <= 3 :: 48 <= Escape(c)[k] as int <= 55
  {
    if !Bare(c) && c as int !in {92, 34, 9, 10, 13} {
      OctalPrinted(c);
      hide Octal, Escape;
    }
  }

  lemma OctalPrinted(c: char)
    requires c as int < 256 && !IsPrint(c) && c != '\t' && c != '\n' && c != '\r'
    ensures var e := Escape(c);
      |e| == 4 && e[0] as int == 92 && Octal(e[1], e[2], e[3]) == c as int && forall k | 1 <= k <= 3 :: 48 <= e[k] as int <= 55
  {
    var b := c as int;
    var p, q, r := b / 64, b / 8 % 8, b % 8;
    DigitsOf(b);
    OctalDigitIs(p);
    OctalDigitIs(q);
    OctalDigitIs(r);
    hide Escape, OctalDigit;
    EscapeInOctal(c);
  }

  lemma EscapeInOctal(c: char)
    requires c as int < 256 && !IsPrint(c) && c != '\t' && c != '\n' && c != '\r'
    ensures Escape(c) == ['\\', OctalDigit(c as int / 64), OctalDigit(c as int / 8 % 8), OctalDigit(c as int % 8)]
  {
    hide OctalDigit;
  }

  lemma DigitsOf(b: nat)
    requires b < 256
    ensures b / 64 < 8 && 64 * (b / 64) + 8 * (b / 8 % 8) + b % 8 == b
  {}

  lemma OctalDigitIs(n: nat)
    requires n < 8
    ensures OctalDigit(n) as int == 48 + n
  {}

  lemma {:induction false} EscapesLength(z: string)
    requires forall i | 0 <= i < |z| :: z[i] as int < 256
    ensures |Escapes(z)| >= |z|
    ensures |Escapes(z)| == |z| ==> Escapes(z) == z && forall i | 0 <= i < |z| :: Bare(z[i])
    ensures (forall i | 0 <= i < |z| :: Bare(z[i])) ==> Escapes(z) == z
  {
    if z != [] {
      ByteIsPrinted(z[0]);
      hide Escape;
      EscapesLength(z[1..]);
      assert z == [z[0]] + z[1..];
      assert forall i | 0 <= i < |z| - 1 :: z[1..][i] == z[i + 1];
    }
  }

  /** A text is printed as it stands, in quotes, exactly if all its bytes stand for themselves. */
  lemma TextIsPrinted(z: string)
    requires forall i | 0 <= i < |z| :: z[i] as int < 256
    ensures CQuoted(z) == "\"" + z + "\"" <==> forall i | 0 <= i < |z| :: Bare(z[i])
  {
    EscapesLength(z);
    hide Escapes;
    if CQuoted(z) == "\"" + z + "\"" {
      assert |CQuoted(z)| == |z| + 2;
    }
  }

  // ---- Resolving ----

  /** The named escapes, by the codes of their letters and of what they stand for. */
  lemma NamedEscape(c: char, t: string)
    ensures var r := Resolve(['\\', c] + t);
      && (c as int == 97 ==> r == [7 as char] + Resolve(t)) && (c as int == 98 ==> r == [8 as char] + Resolve(t))
      && (c as int == 116 ==> r == [9 as char] + Resolve(t)) && (c as int == 110 ==> r == [10 as char] + Resolve(t))
      && (c as int == 118 ==> r == [11 as char] + Resolve(t)) && (c as int == 102 ==> r == [12 as char] + Resolve(t))
      && (c as int == 114 ==> r == [13 as char] + Resolve(t))
      && (c as int !in {97, 98, 116, 110, 118, 102, 114} && !(48 <= c as int <= 55) ==> r == [c] + Resolve(t))
  {
    var s := ['\\', c] + t;
    assert s[2..] == t;
    assert !(48 <= c as int <= 55) ==> Unescape(s).1 == 2 && Resolve(s) == [Unescape(s).0] + Resolve(t);
    hide Resolve;
  }

  /** The value of octal digits, of which the last eight bits count. */
  function OctalsValue(d: string): (n: int) { if d == [] then 0 else 8 * OctalsValue(d[..|d| - 1]) + (d[|d| - 1] as int - 48) }

  /** One to three octal digits; fewer than three go on to the first byte that is none. */
  lemma OctalEscape(d: string, t: string)
    requires 1 <= |d| <= 3 && (forall k | 0 <= k < |d| :: 48 <= d[k] as int <= 55)
    requires |d| < 3 && t != [] ==> !(48 <= t[0] as int <= 55)
    ensures Resolve(['\\'] + d + t) == [(OctalsValue(d) % 256) as char] + Resolve(t)
  {
    var s := ['\\'] + d + t;
    OctalRead(d, t);
    hide OctalsValue, Unescape;
    assert s[0] == '\\' && s[|d| + 1..] == t;
    ResolveOne(s);
  }

  lemma {:induction false} ResolveOne(s: string)
    requires |s| > 1 && s[0] == '\\'
    ensures Resolve(s) == [Unescape(s).0] + Resolve(s[Unescape(s).1..])
  {
    hide Unescape;
  }

  lemma OctalRead(d: string, t: string)
    requires 1 <= |d| <= 3 && (forall k | 0 <= k < |d| :: 48 <= d[k] as int <= 55)
    requires |d| < 3 && t != [] ==> !(48 <= t[0] as int <= 55)
    ensures Unescape(['\\'] + d + t) == ((OctalsValue(d) % 256) as char, |d| + 1)
  {
    var s := ['\\'] + d + t;
    OctalsAre(d);
    assert forall k | 0 <= k < |d| :: s[k + 1] == d[k];
    assert |s| > |d| + 1 ==> s[|d| + 1] == t[0];
    hide *;
    OctalAt(s, d);
  }

  lemma OctalAt(s: string, d: string)
    requires 1 <= |d| <= 3 && |s| > |d| && forall k | 0 <= k < |d| :: s[k + 1] == d[k] && 48 <= d[k] as int <= 55
    requires |d| < 3 && |s| > |d| + 1 ==> !(48 <= s[|d| + 1] as int <= 55)
    ensures Unescape(s) == ((OctalsValue(d) % 256) as char, |d| + 1)
  {
    OctalsAre(d);
    hide OctalsValue;
    assert s[1] == d[0];
    if |d| == 2 {
      assert s[2] == d[1];
    } else if |d| == 3 {
      assert s[2] == d[1] && s[3] == d[2];
    }
  }

  lemma OctalsAre(d: string)
    requires 1 <= |d| <= 3 && forall k | 0 <= k < |d| :: 48 <= d[k] as int <= 55
    ensures OctalsValue(d) == if |d| == 1 then d[0] as int - 48 else if |d| == 2 then 8 * (d[0] as int - 48) + (d[1] as int - 48)
      else 64 * (d[0] as int - 48) + 8 * (d[1] as int - 48) + (d[2] as int - 48)
  {
    assert |d| == 1 ==> d[..0] == [];
    assert |d| >= 2 ==> d[..|d| - 1][..|d| - 2] == d[..|d| - 2] && d[..1][..0] == [];
  }

  /** Anything else stands for itself, and so does a backslash at the end. */
  lemma PlainByte(c: char, t: string)
    requires c as int != 92 || t == []
    ensures Resolve([c] + t) == [c] + Resolve(t)
  {
    assert ([c] + t)[1..] == t;
  }

  // ---- Arguments ----

  lemma SpaceIsSkipped(b: char, t: string, n: nat)
    requires IsSpace(b)
    ensures Tokens([b] + t, n) == Tokens(t, n)
  {
    assert ([b] + t)[1..] == t;
    assert SkipSpaces([b] + t) == SkipSpaces(t);
    hide SkipSpaces, FirstArg;
  }

  /** An argument without quotes is a run of bytes that are no white space, with its escapes resolved. */
  lemma WordToken(w: string, t: string, n: nat)
    requires n < 50 && w != [] && w[0] != '\'' && w[0] != '"' && (forall k | 0 <= k < |w| :: !IsSpace(w[k]))
    requires t != [] ==> IsSpace(t[0])
    ensures Tokens(w + t, n) == [CText(Resolve(w))] + Tokens(t, n + 1)
  {
    WordArg(w, t);
    hide FirstArg, Resolve, CText, Tokens, IsSpace;
    TokensStep([], w + t, n, CText(Resolve(w)), if t != [] then t[1..] else []);
    Empty(w + t);
    if t != [] {
      SpaceIsSkipped(t[0], t[1..], n + 1);
      Uncons(t);
    }
  }

  lemma WordArg(w: string, t: string)
    requires w != [] && w[0] != '\'' && w[0] != '"' && (forall k | 0 <= k < |w| :: !IsSpace(w[k]))
    requires t != [] ==> IsSpace(t[0])
    ensures FirstArg(w + t) == (CText(Resolve(w)), if t != [] then t[1..] else [])
  {
    hide Resolve, WordEnd, CText, QuotedEnd;
    WordRuns(w, t);
    var s := w + t;
    assert s[..|w|] == w && s[0] == w[0] && (t != [] ==> s[|w| + 1..] == t[1..]);
  }

  lemma {:induction false} WordRuns(w: string, t: string)
    requires (forall k | 0 <= k < |w| :: !IsSpace(w[k])) && (t != [] ==> IsSpace(t[0]))
    ensures WordEnd(w + t) == |w|
  {
    if w == [] {
      assert w + t == t;
    } else {
      assert (w + t)[1..] == w[1..] + t;
      WordRuns(w[1..], t);
    }
  }

  /** One in single quotes goes to the next of them, or to the end of the line, and stays as it is. */
  lemma SingleQuotedToken(w: string, t: string, n: nat)
    requires n < 50 && '\'' !in w
    ensures Tokens("'" + w + "'" + t, n) == [w] + Tokens(t, n + 1)
    ensures Tokens("'" + w, n) == [w]
  {
    SingleQuotedArg(w, t);
    var s, u := "'" + w + "'" + t, "'" + w;
    hide FirstArg, Tokens;
    TokensStep([], s, n, w, t);
    TokensStep([], u, n, w, []);
    TokensEnd([], n + 1);
    assert [] + s == s && [] + u == u;
  }

  lemma SingleQuotedArg(w: string, t: string)
    requires '\'' !in w
    ensures FirstArg("'" + w + "'" + t) == (w, t) && FirstArg("'" + w) == (w, [])
  {
    QuotedRuns(w, t);
    hide QuotedEnd, Resolve;
    var s, u, v := "'" + w + "'" + t, "'" + w, w + ("'" + t);
    assert s[0] == '\'' && s[1..] == v && u[0] == '\'' && u[1..] == w;
    assert v[..|w|] == w && v[|w| + 1..] == t && w[..|w|] == w;
  }

  lemma {:induction false} QuotedRuns(w: string, t: string)
    requires '\'' !in w
    ensures QuotedEnd(w + ("'" + t), '\'') == |w| && QuotedEnd(w, '\'') == |w|
  {
    if w == [] {
      assert w + ("'" + t) == "'" + t;
    } else {
      assert (w + ("'" + t))[1..] == w[1..] + ("'" + t);
      QuotedRuns(w[1..], t);
    }
  }

  /** One in double quotes that is not closed is the rest of the line, with its escapes resolved. */
  lemma UnclosedToken(w: string, n: nat)
    requires n < 50 && '"' !in w
    ensures Tokens("\"" + w, n) == [CText(Resolve(w))]
  {
    UnclosedRuns(w);
    var u := "\"" + w;
    assert u[1..] == w && w[..|w|] == w;
    assert FirstArg(u) == (CText(Resolve(w)), []);
    hide FirstArg;
    TokensStep([], u, n, CText(Resolve(w)), []);
    TokensEnd([], n + 1);
    assert [] + u == u;
  }

  lemma {:induction false} UnclosedRuns(w: string)
    requires '"' !in w
    ensures QuotedEnd(w, '"') == |w|
    decreases |w|
  {
    if |w| > 1 && w[0] == '\\' {
      UnclosedRuns(w[2..]);
    } else if w != [] {
      UnclosedRuns(w[1..]);
    }
  }

  /** Fifty arguments are found at most. */
  lemma FiftyArguments(s: string, n: nat)
    ensures |Tokens(s, n)| <= if n < 50 then 50 - n else 0
    decreases |s|
  {
    var t := SkipSpaces(s);
    SkipSpacesStops(s);
    if t != [] && n < 50 {
      hide FirstArg, SkipSpaces;
      FiftyArguments(FirstArg(t).1, n + 1);
    }
  }
}
