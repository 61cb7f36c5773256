/** Evaluating the escaped literal gives the text back: why the generated markers are safe. */
module SqlRoundTrip {
  import opened Seqs
  import opened Wrappers
  import opened Chars
  import opened Numbers
  import opened SqlQuote

  // ---- Markers never overlap ----

  /** `m` laid over `k`, starting at offset `d` of `k`, disagrees with it somewhere. */
  ghost predicate Clash(m: string, k: string, d: int) {
    exists j | 0 <= j < |m| :: 0 <= j + d < |k| && m[j] != k[j + d]
  }

  /** Every partial or full overlap of `m` with `k` disagrees. */
  ghost predicate Apart(m: string, k: string) {
    forall d | -|m| < d < |k| :: Clash(m, k, d)
  }

  /** The same of `m` with itself, except in place. */
  ghost predicate SelfApart(m: string) {
    forall d | -|m| < d < |m| && d != 0 :: Clash(m, m, d)
  }

  /** The form of all markers: one backslash, first or after an opening parenthesis, and an end that
      is neither. */
  predicate Shape(m: string, a: nat) {
    && a <= 1 && |m| >= a + 2 && m[a] == '\\' && (a == 1 ==> m[0] == '(')
    && (forall j | 0 <= j < |m| && j != a :: m[j] != '\\')
    && m[|m| - 1] != '('
  }

  /** The texts after the backslashes disagree somewhere. */
  ghost predicate TailsDiffer(m: string, a: nat, k: string, b: nat)
    requires a <= |m| && b <= |k|
  {
    exists q | 0 <= q < |m[a..]| && q < |k[b..]| :: m[a..][q] != k[b..][q]
  }

  lemma OverlapClashes(m: string, a: nat, k: string, b: nat, d: int)
    requires Shape(m, a) && Shape(k, b) && -|m| < d < |k|
    requires a + d == b ==> TailsDiffer(m, a, k, b)
    ensures Clash(m, k, d)
  {
    if a + d == b {
      var q :| 0 <= q < |m[a..]| && q < |k[b..]| && m[a..][q] != k[b..][q];
      assert a + q + d == b + q;
      var j := a + q;
      assert m[j] != k[j + d];
    } else if 0 <= a + d < |k| {
      assert m[a] != k[a + d];
    } else if a + d >= |k| {
      assert m[0] != k[d];
    } else if b - d < |m| {
      assert m[b - d] != k[b - d + d];
    } else {
      var j := |m| - 1;
      assert m[j] != k[j + d];
    }
  }

  lemma {:induction false} DigitsAreDigits(i: nat)
    ensures forall c | c in Decimal(i) :: IsDigit(c)
  {
    DecimalDigits(i);
  }

  /** Where the backslash of a marker is, and what follows it: a letter, or an octal number. */
  lemma MarkerShape(m: string, letter: char, octal: string) returns (a: nat)
    requires IsMarker(m, ['\\', letter], "\\" + octal)
    requires letter != '\\' && letter != '(' && |octal| == 3 && forall c | c in octal :: IsDigit(c)
    ensures Shape(m, a)
    ensures m[a + 1] == letter || m == "\\" + octal
    ensures m == "\\" + octal ==> a == 0
    ensures forall c | c in m :: c == '\\' || c == letter || c == '(' || c == ')' || IsDigit(c)
  {
    if m == ['\\', letter] {
      a := 0;
    } else if m == "\\" + octal {
      a := 0;
      forall j | 1 <= j < 4 ensures IsDigit(m[j]) {
        assert m[j] == octal[j - 1];
      }
    } else {
      var i: nat :| m == Candidate(['\\', letter], i);
      DigitsAreDigits(i);
      var x := Decimal(i);
      assert m == ['(', '\\', letter] + (x + ")");
      forall j | 3 <= j < |m| ensures m[j] == ')' || IsDigit(m[j]) {
        assert m[j] == (x + ")")[j - 3];
      }
      assert m[|m| - 1] == ')';
      a := 1;
    }
  }

  /** The marker for a carriage return overlaps neither itself nor the one for a newline. */
  lemma MarkersApart(zNL: string, zCR: string)
    requires IsMarker(zNL, "\\n", "\\012") && IsMarker(zCR, "\\r", "\\015")
    ensures Apart(zCR, zNL) && SelfApart(zCR) && SelfApart(zNL)
  {
    var b := MarkerShape(zNL, 'n', "012");
    var a := MarkerShape(zCR, 'r', "015");
    assert TailsDiffer(zCR, a, zNL, b) by {
      if zCR == "\\015" && zNL == "\\012" {
        assert zCR[a..][3] != zNL[b..][3];
      } else {
        assert zCR[a..][1] != zNL[b..][1];
      }
    }
    forall d | -|zCR| < d < |zNL| ensures Clash(zCR, zNL, d) {
      OverlapClashes(zCR, a, zNL, b, d);
    }
    forall d | -|zCR| < d < |zCR| && d != 0 ensures Clash(zCR, zCR, d) {
      OverlapClashes(zCR, a, zCR, a, d);
    }
    forall d | -|zNL| < d < |zNL| && d != 0 ensures Clash(zNL, zNL, d) {
      OverlapClashes(zNL, b, zNL, b, d);
    }
  }

  /** A marker does not overlap a line end byte. */
  lemma ApartFromChar(m: string, c: char)
    requires c !in m
    ensures Apart(m, [c])
  {
    forall d | -|m| < d < 1 ensures Clash(m, [c], d) {
      assert m[-d] != [c][-d + d];
    }
  }

  // ---- One replace() ----

  /** `z` with `c` written as `m` and `o` written as `k`. */
  function Expand(z: string, c: char, m: string, o: char, k: string): (r: string) {
    if z == [] then []
    else (if z[0] == c then m else if z[0] == o then k else [z[0]]) + Expand(z[1..], c, m, o, k)
  }

  lemma {:induction false} ExpandPlain(z: string, n: nat, c: char, m: string, o: char, k: string)
    requires n <= |z| && forall i | 0 <= i < n :: z[i] != c && z[i] != o
    ensures Expand(z, c, m, o, k) == z[..n] + Expand(z[n..], c, m, o, k)
  {
    if n == 0 {
      hide *;
      WholeSlice(z);
      Empty(Expand(z, c, m, o, k));
    } else {
      assert Expand(z, c, m, o, k) == [z[0]] + Expand(z[1..], c, m, o, k);
      hide *;
      ExpandPlain(z[1..], n - 1, c, m, o, k);
      FrontOfTail(z, n);
      Assoc([z[0]], z[1..][..n - 1], Expand(z[n..], c, m, o, k));
    }
  }

  /** How far the ordinary bytes go, up to `max`. */
  lemma PlainRun(z: string, max: int, c: char, o: char) returns (n: int)
    requires z != [] && z[0] != c && z[0] != o && max > 0
    ensures 1 <= n <= |z| && n <= max && (forall i | 0 <= i < n :: z[i] != c && z[i] != o)
    ensures n < max && n < |z| ==> z[n] == c || z[n] == o
  {
    n := 1;
    while n < |z| && n < max && z[n] != c && z[n] != o
      invariant 1 <= n <= |z| && n <= max
      invariant forall i | 0 <= i < n :: z[i] != c && z[i] != o
    {
      n := n + 1;
    }
  }

  /** No occurrence of the marker starts at an ordinary byte: it would lie inside the text, where
      the marker was not found, or straddle a marker. */
  lemma {:induction false} NoneAtPlain(z: string, c: char, m: string, o: char, k: string)
    requires z != [] && z[0] != c && z[0] != o
    requires m != [] && !Occurs(m, z) && SelfApart(m) && Apart(m, k) && k != []
    ensures !(m <= Expand(z, c, m, o, k))
  {
    var n := PlainRun(z, |m|, c, o);
    ExpandPlain(z, n, c, m, o, k);
    var e := Expand(z, c, m, o, k);
    assert e[..n] == z[..n];
    if n == |m| {
      assert z[0..] == z;
      assert !(m <= z);
    } else if n == |z| {
      assert Expand(z[n..], c, m, o, k) == [];
    } else {
      var w := if z[n] == c then m else k;
      assert Expand(z[n..], c, m, o, k) == w + Expand(z[n..][1..], c, m, o, k);
      assert Clash(m, w, -n);
      var j :| 0 <= j < |m| && 0 <= j - n < |w| && m[j] != w[j - n];
      assert e[j] == w[j - n];
    }
  }

  /** No occurrence of the marker starts inside the other marker. */
  lemma NoneInside(k: string, i: nat, x: string, m: string)
    requires i < |k| && m != [] && Apart(m, k)
    ensures !(m <= k[i..] + x)
  {
    assert Clash(m, k, i);
    var j :| 0 <= j < |m| && 0 <= j + i < |k| && m[j] != k[j + i];
    assert (k[i..] + x)[j] == k[j + i];
  }

  lemma {:induction false} SkipOther(k: string, i: nat, x: string, m: string, w: string)
    requires i <= |k| && m != [] && Apart(m, k)
    ensures Replace(k[i..] + x, m, w) == k[i..] + Replace(x, m, w)
    decreases |k| - i
  {
    hide Replace, Apart;
    var r := Replace(x, m, w);
    if i == |k| {
      assert k[i..] + x == x && k[i..] + r == r;
    } else {
      NoneInside(k, i, x, m);
      var t := k[i + 1..] + x;
      assert k[i..] == [k[i]] + k[i + 1..];
      assert k[i..] + x == [k[i]] + t && k[i..] + r == [k[i]] + (k[i + 1..] + r);
      ReplaceStep(k[i], t, m, w);
      SkipOther(k, i + 1, x, m, w);
    }
  }

  lemma {:induction false} ReplaceStep(c: char, t: string, m: string, w: string)
    requires m != [] && !(m <= [c] + t)
    ensures Replace([c] + t, m, w) == [c] + Replace(t, m, w)
  {
    assert ([c] + t)[1..] == t;
  }

  lemma OccursInTail(m: string, z: string)
    requires z != [] && !Occurs(m, z)
    ensures !Occurs(m, z[1..])
  {
    forall i | 0 <= i <= |z[1..]| ensures !(m <= z[1..][i..]) {
      assert z[1..][i..] == z[i + 1..];
    }
  }

  /** replace() turns every inserted marker, and nothing else, back into its byte. */
  lemma {:induction false} ReplaceRestores(z: string, c: char, m: string, o: char, k: string)
    requires c != o && m != [] && k != []
    requires !Occurs(m, z) && SelfApart(m) && Apart(m, k)
    ensures Replace(Expand(z, c, m, o, k), m, [c]) == Expand(z, c, [c], o, k)
    decreases |z|
  {
    if z != [] {
      OccursInTail(m, z);
      ReplaceRestores(z[1..], c, m, o, k);
      var x := Expand(z[1..], c, m, o, k);
      if z[0] == c {
        assert (m + x)[|m|..] == x;
      } else if z[0] == o {
        SkipOther(k, 0, x, m, [c]);
        assert k[0..] == k;
      } else {
        NoneAtPlain(z, c, m, o, k);
        assert ([z[0]] + x)[1..] == x;
      }
    }
  }

  lemma {:induction false} ExpandSwap(z: string, c: char, m: string, o: char, k: string)
    requires c != o
    ensures Expand(z, c, m, o, k) == Expand(z, o, k, c, m)
  {
    if z != [] {
      ExpandSwap(z[1..], c, m, o, k);
    }
  }

  lemma {:induction false} ExpandAbsent(z: string, c: char, m: string, o: char, k: string)
    requires o !in z
    ensures Expand(z, c, m, o, k) == Expand(z, c, m, o, [o])
  {
    if z != [] {
      ExpandAbsent(z[1..], c, m, o, k);
    }
  }

  lemma {:induction false} ExpandSame(z: string, c: char, o: char)
    ensures Expand(z, c, [c], o, [o]) == z
  {
    if z != [] {
      ExpandSame(z[1..], c, o);
    }
  }

  // ---- Reading the literal ----

  predicate NoQuote(m: string) { QUOTE !in m }

  lemma {:induction false} ReadPlainRun(k: string, t: string, acc: string)
    requires NoQuote(k)
    ensures ReadLiteral(k + t, acc) == ReadLiteral(t, acc + k)
    decreases |k|
  {
    if k == [] {
      assert k + t == t && acc + k == acc;
    } else {
      assert (k + t)[1..] == k[1..] + t && acc + k == (acc + [k[0]]) + k[1..];
      ReadPlainRun(k[1..], t, acc + [k[0]]);
    }
  }

  /** The body of the literal, up to its closing quote. */
  lemma {:induction false} ReadBody(z: string, zNL: string, zCR: string, rest: string, acc: string)
    requires NoQuote(zNL) && NoQuote(zCR) && (rest == [] || rest[0] != QUOTE)
    ensures ReadLiteral(Body(z, zNL, zCR) + "'" + rest, acc) == Some((acc + Expand(z, CR, zCR, NL, zNL), rest))
    decreases |z|
  {
    if z == [] {
      assert Body(z, zNL, zCR) + "'" + rest == "'" + rest;
      assert ("'" + rest)[1..] == rest && acc + [] == acc;
    } else {
      var k, more := Image(z[0], zNL, zCR), Body(z[1..], zNL, zCR);
      var w := if z[0] == QUOTE then [QUOTE] else k;
      ReadImage(z[0], zNL, zCR, more + "'" + rest, acc);
      ReadBody(z[1..], zNL, zCR, rest, acc + w);
      hide ReadLiteral, Image;
      Assoc(k, more, "'");
      Assoc(k, more + "'", rest);
      Assoc(acc, w, Expand(z[1..], CR, zCR, NL, zNL));
    }
  }

  lemma {:induction false} ReadImage(c: char, zNL: string, zCR: string, t: string, acc: string)
    requires NoQuote(zNL) && NoQuote(zCR)
    ensures var k := Image(c, zNL, zCR);
      ReadLiteral(k + t, acc) == ReadLiteral(t, acc + (if c == QUOTE then [QUOTE] else k))
  {
    if c == QUOTE {
      assert ([QUOTE, QUOTE] + t)[2..] == t;
    } else {
      hide ReadLiteral;
      ReadPlainRun(Image(c, zNL, zCR), t, acc);
    }
  }

  lemma {:induction false} EvalLiteral(z: string, zNL: string, zCR: string, rest: string)
    requires NoQuote(zNL) && NoQuote(zCR) && (rest == [] || rest[0] != QUOTE)
    ensures Eval(("'" + Body(z, zNL, zCR) + "'") + rest) == Some((Expand(z, CR, zCR, NL, zNL), rest))
  {
    hide ReadLiteral, Body;
    var s := ("'" + Body(z, zNL, zCR) + "'") + rest;
    assert s[1..] == Body(z, zNL, zCR) + "'" + rest;
    ReadBody(z, zNL, zCR, rest, []);
    assert [] + Expand(z, CR, zCR, NL, zNL) == Expand(z, CR, zCR, NL, zNL);
  }

  /** A literal without special bytes. */
  lemma {:induction false} EvalPlain(m: string, rest: string)
    requires NoQuote(m) && (rest == [] || rest[0] != QUOTE)
    ensures Eval("'" + m + "'" + rest) == Some((m, rest))
  {
    var s := "'" + m + "'" + rest;
    assert s[1..] == m + ("'" + rest);
    ReadPlainRun(m, "'" + rest, []);
    assert [] + m == m && ("'" + rest)[1..] == rest;
  }

  predicate Code(c: char, num: string) { (c == CR && num == "13") || (c == NL && num == "10") }

  lemma {:induction false} EvalChar(c: char, num: string, rest: string)
    requires Code(c, num)
    ensures Eval("char(" + num + ")" + rest) == Some(([c], rest))
  {
    var t := ")" + rest;
    var s := "char(" + num + t;
    assert s == "char(" + num + ")" + rest;
    assert s[0] == 'c' && "char(" <= s && s[5..] == num + t;
    ReadTwoDigits(num, t);
    assert t[1..] == rest;
  }

  lemma {:induction false} ReadTwoDigits(num: string, t: string)
    requires t != [] && t[0] == ')'
    ensures num == "13" ==> ReadNumber(num + t, 0) == Some((13, t))
    ensures num == "10" ==> ReadNumber(num + t, 0) == Some((10, t))
  {
    if num == "13" || num == "10" {
      var u := num + t;
      assert u[0] == '1' && u[1..][0] == num[1] && u[1..][1..] == t;
      assert ReadNumber(u, 0) == ReadNumber(u[1..], 1);
      assert ReadNumber(u[1..], 1) == ReadNumber(t, 10 + DigitValue(num[1]));
      assert ReadNumber(t, 10 + DigitValue(num[1])) == Some((10 + DigitValue(num[1]), t));
    }
  }

  function Closing(m: string, num: string): (r: string) { ",'" + m + "',char(" + num + "))" }

  lemma {:induction false} EvalReplace(e: string, x: string, m: string, c: char, num: string, rest: string)
    requires NoQuote(m) && Code(c, num)
    requires Eval(e + (Closing(m, num) + rest)) == Some((x, Closing(m, num) + rest))
    ensures Eval("replace(" + e + Closing(m, num) + rest) == Some((Replace(x, m, [c]), rest))
  {
    hide Eval, Replace;
    var s := "replace(" + e + Closing(m, num) + rest;
    var t := Closing(m, num) + rest;
    var u := ",char(" + num + "))" + rest;
    var v := ")" + rest;
    assert "replace(" <= s && s[8..] == e + t;
    assert "," <= t && t[1..] == "'" + m + "'" + u;
    EvalPlain(m, u);
    assert "," <= u && u[1..] == "char(" + num + ")" + v;
    EvalChar(c, num, v);
    assert ")" <= v && v[1..] == rest;
    EvalCall(s, x, t, m, u, [c], v);
  }

  lemma {:induction false} EvalCall(s: string, x: string, t: string, y: string, u: string, w: string, v: string)
    requires "replace(" <= s && "," <= t && "," <= u && ")" <= v
    requires Eval(s[8..]) == Some((x, t)) && Eval(t[1..]) == Some((y, u)) && Eval(u[1..]) == Some((w, v))
    ensures Eval(s) == Some((Replace(x, y, w), v[1..]))
  {
    assert s[0] == 'r';
  }

  // ---- The theorem ----

  /** What the writer guarantees about the markers it uses. */
  ghost predicate Marked(z: string, zNL: string, zCR: string) {
    && (NL in z ==> !Occurs(zNL, z) && IsMarker(zNL, "\\n", "\\012"))
    && (CR in z ==> !Occurs(zCR, z) && IsMarker(zCR, "\\r", "\\015"))
  }

  /** Undoing the markers in the order of the nested calls. */
  lemma {:induction false} Unmarked(z: string, zNL: string, zCR: string)
    requires Marked(z, zNL, zCR)
    ensures var x := Expand(z, CR, zCR, NL, zNL);
      var y := if CR in z then Replace(x, zCR, [CR]) else x;
      (if NL in z then Replace(y, zNL, [NL]) else y) == z
  {
    hide Replace, Occurs;
    ExpandSame(z, CR, NL);
    if CR in z {
      var a := MarkerShape(zCR, 'r', "015");
      if NL in z {
        MarkersApart(zNL, zCR);
        ReplaceRestores(z, CR, zCR, NL, zNL);
      } else {
        ExpandAbsent(z, CR, zCR, NL, zNL);
        MarkersApart("\\n", zCR);
        ApartFromChar(zCR, NL);
        ReplaceRestores(z, CR, zCR, NL, [NL]);
      }
    }
    if NL in z {
      var b := MarkerShape(zNL, 'n', "012");
      var k := if CR in z then [CR] else zCR;
      ExpandSwap(z, CR, k, NL, zNL);
      if CR !in z {
        ExpandAbsent(z, NL, zNL, CR, zCR);
      }
      MarkersApart(zNL, "\\r");
      ApartFromChar(zNL, CR);
      ReplaceRestores(z, NL, zNL, CR, [CR]);
      ExpandSwap(z, NL, [NL], CR, [CR]);
    } else if CR !in z {
      ExpandAbsent(z, CR, zCR, NL, zNL);
      ExpandSwap(z, CR, zCR, NL, [NL]);
      ExpandAbsent(z, NL, [NL], CR, zCR);
      ExpandSwap(z, NL, [NL], CR, [CR]);
    }
  }

  function Literal(z: string, zNL: string, zCR: string): (r: string) { "'" + Body(z, zNL, zCR) + "'" }

  function Inner(z: string, zNL: string, zCR: string): (r: string) {
    if CR in z then "replace(" + Literal(z, zNL, zCR) + Closing(zCR, "13") else Literal(z, zNL, zCR)
  }

  lemma EscapedIsNested(z: string, zNL: string, zCR: string)
    ensures Escaped(z, zNL, zCR) ==
      if NL in z then "replace(" + Inner(z, zNL, zCR) + Closing(zNL, "10") + [] else Inner(z, zNL, zCR) + []
  {
    var lit, cr, nl := Literal(z, zNL, zCR), Closing(zCR, "13"), Closing(zNL, "10");
    hide Literal, Closing;
    Empty(Inner(z, zNL, zCR));
    Empty("replace(" + Inner(z, zNL, zCR) + nl);
    Empty(lit);
    Empty("replace(" + lit + cr);
    Assoc("replace(", "replace(" + lit, cr);
    Assoc("replace(", "replace(", lit);
    EscapedParts(z, zNL, zCR);
    Empty("replace(");
    Empty("replace(" + lit);
  }

  lemma EscapedParts(z: string, zNL: string, zCR: string)
    ensures Escaped(z, zNL, zCR) == (if NL in z then "replace(" else "") + (if CR in z then "replace(" else "")
      + Literal(z, zNL, zCR) + (if CR in z then Closing(zCR, "13") else "") + (if NL in z then Closing(zNL, "10") else "")
  {
    hide Body;
  }

  lemma {:induction false} EvalInner(z: string, zNL: string, zCR: string, rest: string)
    requires Marked(z, zNL, zCR) && NoQuote(zNL) && NoQuote(zCR) && (rest == [] || rest[0] != QUOTE)
    ensures var x := Expand(z, CR, zCR, NL, zNL);
      Eval(Inner(z, zNL, zCR) + rest) == Some((if CR in z then Replace(x, zCR, [CR]) else x, rest))
  {
    hide Eval, Replace, Body;
    if CR in z {
      EvalLiteral(z, zNL, zCR, Closing(zCR, "13") + rest);
      EvalReplace(Literal(z, zNL, zCR), Expand(z, CR, zCR, NL, zNL), zCR, CR, "13", rest);
    } else {
      EvalLiteral(z, zNL, zCR, rest);
    }
  }

  /** Evaluating what the writer prints gives back exactly the text it was given. */
  lemma EscapedEvaluates(z: string, zNL: string, zCR: string)
    requires Marked(z, zNL, zCR)
    requires NL !in z ==> zNL == []
    requires CR !in z ==> zCR == []
    ensures Eval(Escaped(z, zNL, zCR)) == Some((z, []))
  {
    hide Eval, Replace, Body, Occurs, Expand, Escaped, Inner, IsMarker;
    Unmarked(z, zNL, zCR);
    EscapedIsNested(z, zNL, zCR);
    MarkersUnquoted(z, zNL, zCR);
    var x := Expand(z, CR, zCR, NL, zNL);
    if NL in z {
      EvalInner(z, zNL, zCR, Closing(zNL, "10") + []);
      EvalReplace(Inner(z, zNL, zCR), if CR in z then Replace(x, zCR, [CR]) else x, zNL, NL, "10", []);
    } else {
      EvalInner(z, zNL, zCR, []);
    }
  }

  lemma MarkersUnquoted(z: string, zNL: string, zCR: string)
    requires Marked(z, zNL, zCR) && (NL !in z ==> zNL == []) && (CR !in z ==> zCR == [])
    ensures NoQuote(zNL) && NoQuote(zCR)
  {
    if CR in z {
      var a := MarkerShape(zCR, 'r', "015");
    }
    if NL in z {
      var b := MarkerShape(zNL, 'n', "012");
    }
  }

  /** The writer followed by SQL's evaluation. */
  method RoundTrip(z: string) returns (out: string)
    requires |z| < 0xFFFF_FFFF
    ensures Eval(out) == Some((z, [])) && NL !in out && CR !in out
  {
    hide Eval;
    ghost var zNL, zCR;
    out, zNL, zCR := OutputQuotedEscaped(z);
    EscapedEvaluates(z, zNL, zCR);
  }
}
