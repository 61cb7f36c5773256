/** SQL string literals that carry no line ends, and the expression that restores them. */
module SqlQuote {
  import opened Seqs
  import opened Wrappers
  import opened Chars
  import opened Numbers

  /** strstr(): `p` occurs in `z`. */
  predicate Occurs(p: string, z: string) {
    exists i | 0 <= i <= |z| :: p <= z[i..]
  }

  // ---- unused_string() ----

  function DigitValue(c: char): (r: nat)
    requires IsDigit(c)
  {
    c as int - '0' as int
  }

  function Candidate(a: string, i: nat): (r: string) { "(" + a + Decimal(i) + ")" }

  /** sqlite3_snprintf() into a buffer of 20 bytes. */
  function Buffered(s: string): (r: string) { if |s| <= 19 then s else s[..19] }

  lemma CandidateFits(a: string, i: nat)
    requires |a| == 2 && i < 0x1_0000_0000
    ensures Buffered(Candidate(a, i)) == Candidate(a, i) && |Candidate(a, i)| <= 14
  {
    TenDigits(i);
  }

  /** Different candidates never start at the same place: the closing parenthesis is no digit. */
  lemma CandidatesApart(a: string, i: nat, j: nat, z: string)
    requires Candidate(a, i) <= z && Candidate(a, j) <= z
    ensures i == j
  {
    var x, y, n := Decimal(i), Decimal(j), 1 + |a|;
    DecimalDigits(i);
    DecimalDigits(j);
    assert Candidate(a, i)[n..n + |x|] == x && Candidate(a, j)[n..n + |y|] == y;
    assert z[n..n + |x|] == x && z[n..n + |y|] == y;
    assert z[n + |x|] == ')' && z[n + |y|] == ')';
    DecimalInjective(i, j);
  }

  lemma {:induction false} Pigeonhole(at: seq<nat>, n: nat)
    requires forall i | 0 <= i < |at| :: at[i] < n
    requires forall i, j | 0 <= i < j < |at| :: at[i] != at[j]
    ensures |at| <= n
  {
    assert at != [] ==> at[0] < n;
    if n > 0 {
      if k :| 0 <= k < |at| && at[k] == n - 1 {
        Pigeonhole(at[..k] + at[k + 1..], n - 1);
      } else {
        Pigeonhole(at, n - 1);
      }
    }
  }

  /** `m` is the first of `zA`, `zB` and the numbered strings that is not in the text. */
  ghost predicate FirstUnused(m: string, zA: string, zB: string, z: string) {
    if !Occurs(zA, z) then m == zA
    else if !Occurs(zB, z) then m == zB
    else exists i | 0 <= i <= |z| ::
      m == "(" + zA + Decimal(i) + ")" && !Occurs(m, z) && forall j | 0 <= j < i :: Occurs("(" + zA + Decimal(j) + ")", z)
  }

  /** The first unused string among `zA`, `zB` and the generated candidates. The search looks at
      no more than |z| + 1 candidates. */
  method UnusedString(z: string, zA: string, zB: string) returns (r: string)
    requires |z| < 0xFFFF_FFFF && |zA| == 2
    ensures !Occurs(r, z)
    ensures r == zA || r == zB || exists i | 0 <= i <= |z| :: r == Candidate(zA, i)
    ensures !Occurs(zA, z) ==> r == zA
    ensures Occurs(zA, z) && !Occurs(zB, z) ==> r == zB
    ensures Occurs(zA, z) && Occurs(zB, z) ==>
      exists i | 0 <= i <= |z| :: r == Candidate(zA, i) && forall j | 0 <= j < i :: Occurs(Candidate(zA, j), z)
    ensures FirstUnused(r, zA, zB, z)
  {
    hide FirstUnused, Candidate, Occurs;
    EarlyUnused(zA, zB, z);
    if !Occurs(zA, z) {
      return zA;
    }
    if !Occurs(zB, z) {
      return zB;
    }
    ghost var n;
    r, n := SearchCandidates(z, zA);
    LateUnused(r, n, zA, zB, z);
  }

  lemma EarlyUnused(zA: string, zB: string, z: string)
    ensures !Occurs(zA, z) ==> FirstUnused(zA, zA, zB, z)
    ensures Occurs(zA, z) && !Occurs(zB, z) ==> FirstUnused(zB, zA, zB, z)
  {
    hide Occurs;
  }

  lemma LateUnused(m: string, n: nat, zA: string, zB: string, z: string)
    requires Occurs(zA, z) && Occurs(zB, z) && n <= |z| && m == Candidate(zA, n) && !Occurs(m, z)
    requires forall j | 0 <= j < n :: Occurs(Candidate(zA, j), z)
    ensures FirstUnused(m, zA, zB, z)
  {
    hide Occurs;
    forall j | 0 <= j <= n ensures "(" + zA + Decimal(j) + ")" == Candidate(zA, j) {}
  }

  /** The generated candidates, from the first on: the one at `n` is the first that does not occur. */
  method SearchCandidates(z: string, zA: string) returns (r: string, ghost n: nat)
    requires |z| < 0xFFFF_FFFF && |zA| == 2
    ensures n <= |z| && r == Candidate(zA, n) && !Occurs(r, z)
    ensures forall j | 0 <= j < n :: Occurs(Candidate(zA, j), z)
  {
    hide Candidate, Occurs, Places;
    var i := 0;
    NoPlaces(zA, z);
    CandidateFits(zA, i);
    r := Buffered(Candidate(zA, i));
    i := (i + 1) % 0x1_0000_0000;
    ghost var at: seq<nat> := [];
    while Occurs(r, z)
      invariant 1 <= i <= |z| + 1 && |at| == i - 1
      invariant r == Candidate(zA, i - 1) && Places(at, zA, z)
      decreases |z| + 1 - i
    {
      at := OneMorePlace(at, zA, z);
      CandidateFits(zA, i);
      r := Buffered(Candidate(zA, i));
      i := (i + 1) % 0x1_0000_0000;
    }
    forall j | 0 <= j < i - 1 ensures Occurs(Candidate(zA, j), z) {
      PlaceOccurs(at, zA, z, j);
    }
    n := i - 1;
  }

  lemma NoPlaces(zA: string, z: string)
    ensures Places([], zA, z)
  {}

  /** Each candidate so far occurs at its place, and no two at the same one. */
  ghost predicate Places(at: seq<nat>, zA: string, z: string) {
    && (forall j | 0 <= j < |at| :: at[j] < |z| && Candidate(zA, j) <= z[at[j]..])
    && (forall j, k | 0 <= j < k < |at| :: at[j] != at[k])
  }

  lemma PlaceOccurs(at: seq<nat>, zA: string, z: string, j: nat)
    requires Places(at, zA, z) && j < |at|
    ensures Occurs(Candidate(zA, j), z)
  {
    hide Candidate;
    assert Candidate(zA, j) <= z[at[j]..];
  }

  /** The next candidate, if it occurs, takes a place of its own; so there are places left for no
      more than |z| candidates. */
  lemma OneMorePlace(at: seq<nat>, zA: string, z: string) returns (at': seq<nat>)
    requires Places(at, zA, z) && Occurs(Candidate(zA, |at|), z)
    ensures Places(at', zA, z) && |at'| == |at| + 1 <= |z|
  {
    var p :| 0 <= p <= |z| && Candidate(zA, |at|) <= z[p..];
    assert Candidate(zA, |at|) != [];
    hide Candidate, Occurs;
    forall j | 0 <= j < |at| ensures at[j] != p {
      if at[j] == p {
        CandidatesApart(zA, j, |at|, z[p..]);
      }
    }
    at' := at + [p];
    PlacesGrow(at, p, zA, z);
    hide *;
    PlacesAreApart(at', zA, z);
    Pigeonhole(at', |z|);
  }

  lemma PlacesGrow(at: seq<nat>, p: nat, zA: string, z: string)
    requires Places(at, zA, z) && p < |z| && Candidate(zA, |at|) <= z[p..] && forall j | 0 <= j < |at| :: at[j] != p
    ensures Places(at + [p], zA, z)
  {
    hide Candidate;
    var at' := at + [p];
    forall j | 0 <= j < |at'| ensures at'[j] < |z| && Candidate(zA, j) <= z[at'[j]..] {
      assert j < |at| ==> at'[j] == at[j];
    }
  }

  lemma PlacesAreApart(at: seq<nat>, zA: string, z: string)
    requires Places(at, zA, z)
    ensures (forall i | 0 <= i < |at| :: at[i] < |z|) && (forall i, j | 0 <= i < j < |at| :: at[i] != at[j])
  {}

  // ---- output_quoted_escaped_string() ----

  const QUOTE := '\''
  const NL := '\n'
  const CR := '\r'

  predicate Special(c: char) { c == QUOTE || c == NL || c == CR }

  function Image(c: char, zNL: string, zCR: string): (r: string) {
    if c == QUOTE then [QUOTE, QUOTE] else if c == NL then zNL else if c == CR then zCR else [c]
  }

  /** The literal's body: quotes doubled, line ends replaced by their markers. */
  function Body(z: string, zNL: string, zCR: string): (r: string) {
    if z == [] then [] else Image(z[0], zNL, zCR) + Body(z[1..], zNL, zCR)
  }

  function Escaped(z: string, zNL: string, zCR: string): (r: string) {
    (if NL in z then "replace(" else "") + (if CR in z then "replace(" else "")
      + ("'" + Body(z, zNL, zCR) + "'")
      + (if CR in z then ",'" + zCR + "',char(13))" else "") + (if NL in z then ",'" + zNL + "',char(10))" else "")
  }

  lemma {:induction false} BodySegment(z: string, i: nat, zNL: string, zCR: string)
    requires i <= |z| && forall k | 0 <= k < i :: !Special(z[k])
    ensures Body(z, zNL, zCR) == z[..i] + Body(z[i..], zNL, zCR)
  {
    WholeSlice(z);
    if i == 0 {
      hide *;
      Empty(Body(z, zNL, zCR));
    } else {
      BodyStep(z, 0, zNL, zCR);
      hide Body;
      BodySegment(z[1..], i - 1, zNL, zCR);
      FrontOfTail(z, i);
      Assoc([z[0]], z[1..][..i - 1], Body(z[i..], zNL, zCR));
    }
  }

  /** One turn of the segment loop on the text `z`: the output and how much of `z` it covers. */
  method WriteSegment(z: string, zNL: string, zCR: string) returns (text: string, n: nat)
    requires z != []
    ensures 1 <= n <= |z|
    ensures Body(z, zNL, zCR) == text + Body(z[n..], zNL, zCR)
  {
    var i := 0;
    while i < |z| && !Special(z[i])
      invariant 0 <= i <= |z|
      invariant forall k | 0 <= k < i :: !Special(z[k])
    {
      i := i + 1;
    }
    BodySegment(z, i, zNL, zCR);
    if i == |z| {
      BodyEnd(zNL, zCR);
      assert z[..i] == z && z[i..] == [];
      return z, i;
    }
    BodyStep(z, i, zNL, zCR);
    hide Body, Image;
    Assoc(z[..i], Image(z[i], zNL, zCR), Body(z[i + 1..], zNL, zCR));
    var c := z[i];
    n := i + 1;
    if c == QUOTE {
      text := z[..i + 1] + [QUOTE];
      assert text == z[..i] + [QUOTE, QUOTE];
    } else {
      text := z[..i] + (if c == NL then zNL else zCR);
    }
    SpecialImage(c, zNL, zCR);
  }

  lemma SpecialImage(c: char, zNL: string, zCR: string)
    requires Special(c)
    ensures Image(c, zNL, zCR) == if c == QUOTE then [QUOTE, QUOTE] else if c == NL then zNL else zCR
  {}

  lemma {:induction false} BodyStep(z: string, i: nat, zNL: string, zCR: string)
    requires i < |z|
    ensures Body(z[i..], zNL, zCR) == Image(z[i], zNL, zCR) + Body(z[i + 1..], zNL, zCR)
  {
    assert z[i..][1..] == z[i + 1..];
  }

  method WriteBody(z: string, zNL: string, zCR: string) returns (out: string)
    ensures out == Body(z, zNL, zCR)
  {
    hide Body;
    out := [];
    var p := 0;
    assert z[0..] == z;
    while p < |z|
      invariant 0 <= p <= |z|
      invariant out + Body(z[p..], zNL, zCR) == Body(z, zNL, zCR)
    {
      var text, n := WriteSegment(z[p..], zNL, zCR);
      assert z[p..][n..] == z[p + n..];
      out := out + text;
      p := p + n;
    }
    BodyEnd(zNL, zCR);
    assert z[p..] == [];
  }

  lemma {:induction false} BodyEnd(zNL: string, zCR: string)
    ensures Body([], zNL, zCR) == []
  {}

  ghost predicate IsMarker(m: string, a: string, b: string) { m == a || m == b || exists i: nat :: m == Candidate(a, i) }

  /** The whole writer. The markers are meaningful where the line ends occur. */
  method OutputQuotedEscaped(z: string) returns (out: string, ghost zNL: string, ghost zCR: string)
    requires |z| < 0xFFFF_FFFF
    ensures out == Escaped(z, zNL, zCR)
    ensures NL in z ==> !Occurs(zNL, z) && IsMarker(zNL, "\\n", "\\012")
    ensures CR in z ==> !Occurs(zCR, z) && IsMarker(zCR, "\\r", "\\015")
    ensures NL in z ==> FirstUnused(zNL, "\\n", "\\012", z)
    ensures CR in z ==> FirstUnused(zCR, "\\r", "\\015", z)
    ensures (NL !in z ==> zNL == []) && (CR !in z ==> zCR == [])
    ensures NL !in out && CR !in out
  {
    zNL, zCR := [], [];
    if forall i | 0 <= i < |z| :: !Special(z[i]) {
      BodySegment(z, |z|, zNL, zCR);
      assert z[..|z|] == z;
      return "'" + z + "'", zNL, zCR;
    }
    hide Body, Occurs, Candidate, FirstUnused;
    var open1, open2, close2, close1 := "", "", "", "";
    var nl, cr := "", "";
    if NL in z {
      open1 := "replace(";
      nl := UnusedString(z, "\\n", "\\012");
    }
    if CR in z {
      open2 := "replace(";
      cr := UnusedString(z, "\\r", "\\015");
    }
    var body := WriteBody(z, nl, cr);
    if CR in z {
      close2 := ",'" + cr + "',char(13))";
    }
    if NL in z {
      close1 := ",'" + nl + "',char(10))";
    }
    out, zNL, zCR := open1 + open2 + ("'" + body + "'") + close2 + close1, nl, cr;
    NoLineEnds(z, zNL, zCR);
  }

  lemma {:induction false} BodyOfBoth(y: string, z: string, zNL: string, zCR: string)
    ensures Body(y + z, zNL, zCR) == Body(y, zNL, zCR) + Body(z, zNL, zCR)
  {
    if y == [] {
      Empty(z);
      Empty(Body(z, zNL, zCR));
    } else {
      TailOfBoth(y, z);
      BodyOfBoth(y[1..], z, zNL, zCR);
      Assoc(Image(y[0], zNL, zCR), Body(y[1..], zNL, zCR), Body(z, zNL, zCR));
    }
  }

  /** The characters of a literal, one by one: a quote is doubled, and the line ends, by their codes, give
      way to the markers. */
  lemma CharInLiteral(y: string, c: char, z: string, zNL: string, zCR: string)
    ensures var image := if c as int == 39 then "''" else if c as int == 10 then zNL else if c as int == 13 then zCR else [c];
      Body(y + ([c] + z), zNL, zCR) == Body(y, zNL, zCR) + (image + Body(z, zNL, zCR))
  {
    BodyOfBoth(y, [c] + z, zNL, zCR);
    FirstOf(c, z);
  }

  /** What is printed around the literal, for each kind of line end that the text has. */
  lemma LineEndsInText(z: string, zNL: string, zCR: string)
    ensures var (lit, nl, cr) := ("'" + Body(z, zNL, zCR) + "'", 10 as char in z, 13 as char in z);
      && (!nl && !cr ==> Escaped(z, zNL, zCR) == lit)
      && (nl && !cr ==> Escaped(z, zNL, zCR) == "replace(" + lit + ",'" + zNL + "',char(10))")
      && (!nl && cr ==> Escaped(z, zNL, zCR) == "replace(" + lit + ",'" + zCR + "',char(13))")
      && (nl && cr ==>
          Escaped(z, zNL, zCR) == "replace(replace(" + lit + ",'" + zCR + "',char(13)),'" + zNL + "',char(10))")
  {
    hide Body;
    assert "replace(" + "replace(" == "replace(replace(";
    var lit := "'" + Body(z, zNL, zCR) + "'";
    var a, b := ",'" + zCR + "',char(13))", ",'" + zNL + "',char(10))";
    assert Escaped(z, zNL, zCR) == (if NL in z then "replace(" else "") + (if CR in z then "replace(" else "") + lit
      + (if CR in z then a else "") + (if NL in z then b else "");
    if NL in z && CR in z {
      assert "',char(13))" + ",'" == "',char(13)),'";
    }
  }

  predicate OneLine(s: string) { NL !in s && CR !in s }

  lemma MarkerIsOneLine(m: string, a: string, b: string)
    requires IsMarker(m, a, b) && OneLine(a) && OneLine(b)
    ensures OneLine(m)
  {
    if m != a && m != b {
      var i: nat :| m == Candidate(a, i);
      DecimalDigits(i);
      assert forall c | c in Decimal(i) :: IsDigit(c);
    }
  }

  lemma {:induction false} BodyIsOneLine(z: string, zNL: string, zCR: string)
    requires (NL in z ==> OneLine(zNL)) && (CR in z ==> OneLine(zCR))
    ensures OneLine(Body(z, zNL, zCR))
  {
    if z != [] {
      BodyIsOneLine(z[1..], zNL, zCR);
    }
  }

  /** The markers and with them the whole expression carry no line ends. */
  lemma NoLineEnds(z: string, zNL: string, zCR: string)
    requires NL in z ==> IsMarker(zNL, "\\n", "\\012")
    requires CR in z ==> IsMarker(zCR, "\\r", "\\015")
    ensures OneLine(Escaped(z, zNL, zCR))
  {
    if NL in z {
      MarkerIsOneLine(zNL, "\\n", "\\012");
    }
    if CR in z {
      MarkerIsOneLine(zCR, "\\r", "\\015");
    }
    BodyIsOneLine(z, zNL, zCR);
    ClosingIsOneLine(zNL);
    ClosingIsOneLine(zCR);
    WordsAreOneLine();
    hide OneLine, Body, IsMarker;
    var body := Body(z, zNL, zCR);
    var open1, open2 := if NL in z then "replace(" else "", if CR in z then "replace(" else "";
    var close2, close1 := if CR in z then ",'" + zCR + "',char(13))" else "", if NL in z then ",'" + zNL + "',char(10))" else "";
    assert Escaped(z, zNL, zCR) == open1 + open2 + ("'" + body + "'") + close2 + close1;
    BothOneLine("'", body);
    BothOneLine("'" + body, "'");
    BothOneLine(open1, open2);
    BothOneLine(open1 + open2, "'" + body + "'");
    BothOneLine(open1 + open2 + ("'" + body + "'"), close2);
    BothOneLine(open1 + open2 + ("'" + body + "'") + close2, close1);
  }

  lemma WordsAreOneLine()
    ensures OneLine("") && OneLine("'") && OneLine("replace(")
  {}

  lemma ClosingIsOneLine(m: string)
    ensures OneLine(m) ==> OneLine(",'" + m + "',char(10))") && OneLine(",'" + m + "',char(13))")
  {}

  lemma BothOneLine(a: string, b: string)
    requires OneLine(a) && OneLine(b)
    ensures OneLine(a + b)
  {}

  // ---- SQL's reading of the output ----

  /** replace(X, Y, Z): occurrences are found from the left and do not overlap. */
  function Replace(s: string, p: string, w: string): (r: string) {
    if p == [] then s
    else if p <= s then w + Replace(s[|p|..], p, w)
    else if s == [] then []
    else [s[0]] + Replace(s[1..], p, w)
  }

  /** The rest of a string literal after its opening quote. */
  function ReadLiteral(s: string, acc: string): (r: Option<(string, string)>)
    ensures r.Some? ==> |r.value.1| < |s|
    decreases |s|
  {
    if s == [] then None
    else if s[0] != QUOTE then ReadLiteral(s[1..], acc + [s[0]])
    else if |s| > 1 && s[1] == QUOTE then ReadLiteral(s[2..], acc + [QUOTE])
    else Some((acc, s[1..]))
  }

  function ReadNumber(s: string, acc: nat): (r: Option<(nat, string)>)
    ensures r.Some? ==> |r.value.1| <= |s|
  {
    if s == [] || !IsDigit(s[0]) then Some((acc, s)) else ReadNumber(s[1..], 10 * acc + DigitValue(s[0]))
  }

  /** Evaluates an expression made of string literals, replace() and char(), and returns the rest. */
  function Eval(s: string): (r: Option<(string, string)>)
    ensures r.Some? ==> |r.value.1| < |s|
    decreases |s|
  {
    if "'" <= s then ReadLiteral(s[1..], [])
    else if "char(" <= s then
      match ReadNumber(s[5..], 0)
      case None => None
      case Some((n, t)) =>
        if n < 128 && ")" <= t then Some(([n as char], t[1..])) else None
    else if "replace(" <= s then
      match Eval(s[8..])
      case None => None
      case Some((x, t)) =>
        if !("," <= t) then None else
        match Eval(t[1..])
        case None => None
        case Some((y, u)) =>
          if !("," <= u) then None else
          match Eval(u[1..])
          case None => None
          case Some((w, v)) => if ")" <= v then Some((Replace(x, y, w), v[1..])) else None
    else None
  }
}
