/** testcase_glob(): what its patterns mean. */
module Glob {
  import opened Seqs
  import opened Chars

  /** A `char` as the signed integer it is compared as. */
  function Signed(c: char): (r: int) { if c as int < 128 then c as int else c as int - 256 }

  // ---- Patterns as tokens ----

  datatype Item = Single(c: int) | Range(lo: int, hi: int) {
    predicate Has(x: int) {
      match this
      case Single(c) => x == c
      case Range(lo, hi) => lo <= x <= hi
    }
  }

  datatype Token = Span | Star | AnyOne | Number | Literal(c: char) | OneOf(invert: bool, items: seq<Item>) | Never

  predicate Seen(items: seq<Item>, x: int) { exists k | 0 <= k < |items| :: items[k].Has(x) }

  /** The items of a bracket expression up to its closing bracket, and the rest of the pattern.
      `prior` is the last single character, or 0 when a hyphen cannot make a range. */
  datatype SetBody = SetBody(items: seq<Item>, rest: string, closed: bool)

  function SetItems(g: string, prior: int): (r: SetBody)
    ensures |r.rest| <= |g|
    decreases |g|
  {
    if g == [] then SetBody([], [], false)
    else if g[0] == ']' then SetBody([], g[1..], true)
    else if g[0] == '-' && |g| > 1 && g[1] != ']' && prior > 0 then
      var r := SetItems(g[2..], 0);
      r.(items := [Range(prior, Signed(g[1]))] + r.items)
    else
      var r := SetItems(g[1..], Signed(g[0]));
      r.(items := [Single(Signed(g[0]))] + r.items)
  }

  /** A bracket expression after its opening bracket. A closing bracket that comes first is literal. */
  function Bracket(g: string): (r: (Token, string))
    ensures |r.1| <= |g| && (r.0.OneOf? || r.0.Never?)
  {
    var invert := g != [] && g[0] == '^';
    var g1 := if invert then g[1..] else g;
    var first := g1 != [] && g1[0] == ']';
    var g2 := if first then g1[1..] else g1;
    var body := SetItems(g2, 0);
    var items := (if first then [Single(']' as int)] else []) + body.items;
    (if body.closed then OneOf(invert, items) else Never, body.rest)
  }

  /** The tokens of a pattern. `star` tells whether a run of stars and question marks that began
      with a star comes just before; with `quirk`, white space or `#` there is a literal byte. */
  function Tokens(g: string, star: bool, quirk: bool): (r: seq<Token>)
    decreases |g|
  {
    if g == [] then []
    else if star && quirk && (IsSpace(g[0]) || g[0] == '#') then [Literal(g[0])] + Tokens(g[1..], false, quirk)
    else if IsSpace(g[0]) then [Span] + Tokens(SkipSpaces(g[1..]), false, quirk)
    else if g[0] == '*' then [Star] + Tokens(g[1..], true, quirk)
    else if g[0] == '?' then [AnyOne] + Tokens(g[1..], star, quirk)
    else if g[0] == '[' then
      var (t, rest) := Bracket(g[1..]);
      [t] + Tokens(rest, false, quirk)
    else if g[0] == '#' then [Number] + Tokens(g[1..], false, quirk)
    else [Literal(g[0])] + Tokens(g[1..], false, quirk)
  }

  // ---- What a token matches ----

  /** Where the digits of a number at `i` start: after a sign that a digit follows. */
  function DigitsAt(z: string, i: nat): (r: nat)
    requires i <= |z|
  {
    if i + 1 < |z| && (z[i] == '-' || z[i] == '+') && IsDigit(z[i + 1]) then i + 1 else i
  }

  predicate SpanOf(z: string, i: nat, j: nat) {
    i < j <= |z| && (forall k | i <= k < j :: IsSpace(z[k])) && (j < |z| ==> !IsSpace(z[j]))
  }

  predicate DigitsOf(z: string, i: nat, j: nat) {
    i < j <= |z| && (forall k | i <= k < j :: IsDigit(z[k])) && (j < |z| ==> !IsDigit(z[j]))
  }

  /** Token `t` matches the piece of the text from `i` to `j`. Spans of white space and numbers are
      as long as they can be. */
  predicate Piece(t: Token, z: string, i: nat, j: nat) {
    i <= j <= |z| &&
    match t
    case Span => SpanOf(z, i, j)
    case Star => true
    case AnyOne => j == i + 1
    case Number => DigitsOf(z, DigitsAt(z, i), j)
    case Literal(c) => j == i + 1 && z[i] == c
    case OneOf(invert, items) => j == i + 1 && Seen(items, Signed(z[i])) != invert
    case Never => false
  }

  predicate Blank(z: string, i: nat)
    requires i <= |z|
  {
    forall k | i <= k < |z| :: IsSpace(z[k])
  }

  /** The text can be cut into one piece per token and a blank remainder. */
  ghost predicate CutBy(cuts: seq<nat>, ts: seq<Token>, z: string, i: nat) {
    && |cuts| == |ts| + 1 && cuts[0] == i && cuts[|ts|] <= |z|
    && (forall k | 0 <= k < |ts| :: Piece(ts[k], z, cuts[k], cuts[k + 1]))
    && Blank(z, cuts[|ts|])
  }

  ghost predicate Matches(ts: seq<Token>, z: string) {
    exists cuts: seq<nat> :: CutBy(cuts, ts, z, 0)
  }

  // ---- The same from left to right ----

  ghost predicate MatchFrom(ts: seq<Token>, z: string, i: nat)
    requires i <= |z|
    decreases |ts|
  {
    if ts == [] then Blank(z, i)
    else exists j | i <= j <= |z| :: Piece(ts[0], z, i, j) && MatchFrom(ts[1..], z, j)
  }

  lemma {:induction false} CutsGiveMatch(cuts: seq<nat>, ts: seq<Token>, z: string, i: nat)
    requires i <= |z| && CutBy(cuts, ts, z, i)
    ensures MatchFrom(ts, z, i)
    decreases |ts|
  {
    if ts != [] {
      assert Piece(ts[0], z, cuts[0], cuts[1]);
      forall k | 0 <= k < |ts[1..]| ensures Piece(ts[1..][k], z, cuts[1..][k], cuts[1..][k + 1]) {
        assert Piece(ts[k + 1], z, cuts[k + 1], cuts[k + 2]);
      }
      CutsGiveMatch(cuts[1..], ts[1..], z, cuts[1]);
    }
  }

  lemma {:induction false} MatchGivesCuts(ts: seq<Token>, z: string, i: nat) returns (cuts: seq<nat>)
    requires i <= |z| && MatchFrom(ts, z, i)
    ensures CutBy(cuts, ts, z, i)
    decreases |ts|
  {
    if ts == [] {
      cuts := [i];
    } else {
      var j :| i <= j <= |z| && Piece(ts[0], z, i, j) && MatchFrom(ts[1..], z, j);
      var more := MatchGivesCuts(ts[1..], z, j);
      cuts := [i] + more;
      forall k | 0 <= k < |ts| ensures Piece(ts[k], z, cuts[k], cuts[k + 1]) {
        if k > 0 {
          assert Piece(ts[1..][k - 1], z, more[k - 1], more[k]);
        }
      }
    }
  }

  lemma {:induction false} MatchIsCuts(ts: seq<Token>, z: string)
    ensures MatchFrom(ts, z, 0) <==> Matches(ts, z)
  {
    if MatchFrom(ts, z, 0) {
      var cuts := MatchGivesCuts(ts, z, 0);
    }
    if Matches(ts, z) {
      var cuts: seq<nat> :| CutBy(cuts, ts, z, 0);
      CutsGiveMatch(cuts, ts, z, 0);
    }
  }

  // ---- Tokens whose piece is determined ----

  /** If only one piece can match the first token, matching goes on behind it. */
  lemma {:induction false} OnePiece(ts: seq<Token>, z: string, i: nat, j: nat)
    requires ts != [] && i <= j <= |z| && Piece(ts[0], z, i, j)
    requires forall k | i <= k <= |z| && Piece(ts[0], z, i, k) :: k == j
    ensures MatchFrom(ts, z, i) == MatchFrom(ts[1..], z, j)
  {}

  lemma {:induction false} NoPiece(ts: seq<Token>, z: string, i: nat)
    requires ts != [] && i <= |z|
    requires forall k | i <= k <= |z| :: !Piece(ts[0], z, i, k)
    ensures !MatchFrom(ts, z, i)
  {}

  // ---- Runs of stars and question marks ----

  /** The tokens match at some position from `i` on. */
  ghost predicate Later(ts: seq<Token>, z: string, i: nat)
    requires i <= |z|
  {
    exists j | i <= j <= |z| :: MatchFrom(ts, z, j)
  }

  lemma {:induction false} StarEats(ts: seq<Token>, z: string, i: nat)
    requires i <= |z|
    ensures MatchFrom([Star] + ts, z, i) == Later(ts, z, i)
  {
    var s := [Star] + ts;
    assert s[0] == Star && s[1..] == ts;
    if j :| i <= j <= |z| && MatchFrom(ts, z, j) {
      assert Piece(s[0], z, i, j) && MatchFrom(s[1..], z, j);
    }
  }

  /** Two stars are one. */
  lemma {:induction false} StarStar(ts: seq<Token>, z: string, i: nat)
    requires i <= |z|
    ensures MatchFrom([Star] + ([Star] + ts), z, i) == MatchFrom([Star] + ts, z, i)
  {
    StarEats([Star] + ts, z, i);
    forall j | i <= j <= |z| ensures MatchFrom([Star] + ts, z, j) == Later(ts, z, j) {
      StarEats(ts, z, j);
    }
  }

  lemma {:induction false} AnyEats(ts: seq<Token>, z: string, i: nat)
    requires i <= |z|
    ensures MatchFrom([AnyOne] + ts, z, i) <==> i < |z| && MatchFrom(ts, z, i + 1)
  {
    assert ([AnyOne] + ts)[1..] == ts;
    if i < |z| {
      OnePiece([AnyOne] + ts, z, i, i + 1);
    } else {
      NoPiece([AnyOne] + ts, z, i);
    }
  }

  /** A question mark after a star can be matched first. */
  lemma {:induction false} StarAny(ts: seq<Token>, z: string, i: nat)
    requires i <= |z|
    ensures MatchFrom([Star] + ([AnyOne] + ts), z, i) <==> i < |z| && MatchFrom([Star] + ts, z, i + 1)
  {
    StarEats([AnyOne] + ts, z, i);
    forall j | i <= j <= |z| ensures MatchFrom([AnyOne] + ts, z, j) <==> j < |z| && MatchFrom(ts, z, j + 1) {
      AnyEats(ts, z, j);
    }
    if MatchFrom([Star] + ([AnyOne] + ts), z, i) {
      var j :| i <= j <= |z| && MatchFrom([AnyOne] + ts, z, j);
      StarEats(ts, z, i + 1);
      assert MatchFrom(ts, z, j + 1);
    }
    if i < |z| {
      StarEats(ts, z, i + 1);
      if MatchFrom([Star] + ts, z, i + 1) {
        var k :| i + 1 <= k <= |z| && MatchFrom(ts, z, k);
        assert (k - 1) + 1 == k;
        assert MatchFrom([AnyOne] + ts, z, k - 1);
      }
    }
  }

  // ---- The code ----

  ghost predicate IsBytes(s: string) { forall k | 0 <= k < |s| :: s[k] as int < 256 }

  /** The first item of the body of a bracket expression and how many bytes it takes. */
  function FirstItem(g: string, prior: int): (r: (Item, nat))
    requires g != []
  {
    if g[0] == '-' && |g| > 1 && g[1] != ']' && prior > 0 then (Range(prior, Signed(g[1])), 2)
    else (Single(Signed(g[0])), 1)
  }

  lemma {:induction false} ItemsStep(g: string, p: nat, prior: int)
    requires p < |g| && g[p] != ']'
    ensures var (item, n) := FirstItem(g[p..], prior);
      var r := SetItems(g[p + n..], if n == 2 then 0 else Signed(g[p]));
      SetItems(g[p..], prior) == r.(items := [item] + r.items)
  {
    var t := g[p..];
    var (item, n) := FirstItem(t, prior);
    assert t[n..] == g[p + n..];
  }

  lemma {:induction false} ItemsEnd(g: string, p: nat, prior: int)
    requires p <= |g| && (p < |g| ==> g[p] == ']')
    ensures SetItems(g[p..], prior) == if p < |g| then SetBody([], g[p + 1..], true) else SetBody([], [], false)
  {
    if p < |g| {
      assert g[p..][1..] == g[p + 1..];
    }
  }

  /** The loop over the items of a bracket expression: whether one of them, or one seen `before`,
      has the byte, and where the expression ends. */
  method ScanItems(g: string, p0: nat, c: char, seen0: bool, ghost before: seq<Item>) returns (seen: bool, p: nat)
    requires p0 <= |g| && IsBytes(g) && c as int < 256 && seen0 == Seen(before, Signed(c))
    ensures p0 <= p <= |g|
    ensures var body := SetItems(g[p0..], 0);
      && seen == Seen(before + body.items, Signed(c)) && body.closed == (p < |g|)
      && (p < |g| ==> body.rest == g[p + 1..])
  {
    hide Seen, Signed, SetItems;
    ghost var body, got := SetItems(g[p0..], 0), before;
    seen, p := seen0, p0;
    var prior := 0;
    while p < |g| && g[p] != ']'
      invariant p0 <= p <= |g|
      invariant seen == Seen(got, Signed(c))
      invariant before + body.items == got + SetItems(g[p..], prior).items
      invariant SetItems(g[p..], prior).rest == body.rest && SetItems(g[p..], prior).closed == body.closed
      decreases |g| - p
    {
      ghost var item := FirstItem(g[p..], prior).0;
      ItemsStep(g, p, prior);
      SeenMore(got, item, Signed(c));
      got := got + [item];
      if g[p] == '-' && p + 1 < |g| && g[p + 1] != ']' && prior > 0 {
        if prior <= Signed(c) <= Signed(g[p + 1]) {
          seen := true;
        }
        prior := 0;
        p := p + 2;
      } else {
        SignedInjective(c, g[p]);
        if c == g[p] {
          seen := true;
        }
        prior := Signed(g[p]);
        p := p + 1;
      }
    }
    ItemsEnd(g, p, prior);
    assert got + [] == got;
  }

  /** The bracket branch on the byte `c`: whether the byte is accepted, and the rest of the pattern. */
  method MatchBracket(g: string, p0: nat, c: char) returns (ok: bool, p: nat)
    requires p0 <= |g| && IsBytes(g) && c as int < 256
    ensures p0 <= p <= |g|
    ensures var (t, rest) := Bracket(g[p0..]);
      ok == (t.OneOf? && Seen(t.items, Signed(c)) != t.invert) && (ok ==> rest == g[p..])
  {
    hide SetItems;
    p := p0;
    var seen, invert := false, false;
    ghost var s := g[p0..];
    if p < |g| && g[p] == '^' {
      invert := true;
      p := p + 1;
      assert s[1..] == g[p..];
    }
    ghost var g1, before := g[p..], [];
    if p < |g| && g[p] == ']' {
      if c == ']' {
        seen := true;
      }
      p := p + 1;
      before := [Single(']' as int)];
      assert g1[1..] == g[p..];
      SeenMore([], Single(']' as int), Signed(c));
      assert [] + [Single(']' as int)] == before;
    }
    seen, p := ScanItems(g, p, c, seen, before);
    ok := p < |g| && seen != invert;
    if p < |g| {
      p := p + 1;
    }
  }

  lemma SeenMore(items: seq<Item>, item: Item, x: int)
    ensures Seen(items + [item], x) == (Seen(items, x) || item.Has(x))
  {
    var s := items + [item];
    assert s[|items|] == item;
    if Seen(items, x) {
      var k :| 0 <= k < |items| && items[k].Has(x);
      assert s[k].Has(x);
    }
  }

  lemma SignedInjective(c: char, d: char)
    requires c as int < 256 && d as int < 256
    ensures Signed(c) == Signed(d) <==> c == d
  {}

  // ---- The matcher ----

  /** What the matcher decides for the rest of a pattern and the rest of a text. */
  ghost predicate Rest(g: string, p: nat, z: string, q: nat)
    requires p <= |g| && q <= |z|
  {
    MatchFrom(Tokens(g[p..], false, true), z, q)
  }

  /** One branch of the matcher's loop: it refuses only what cannot match and otherwise goes on
      where the rest must match. */
  ghost predicate Advance(g: string, p0: nat, z: string, q0: nat, ok: bool, p: nat, q: nat)
    requires p0 < |g| && q0 <= |z|
  {
    if ok then p0 < p <= |g| && q0 <= q <= |z| && Rest(g, p, z, q) == Rest(g, p0, z, q0) else !Rest(g, p0, z, q0)
  }

  /** If the first token's piece can only end at `q`, or nowhere when not `ok`, the branch may advance. */
  lemma AdvanceOver(t: Token, g: string, p0: nat, z: string, q0: nat, ok: bool, p: nat, q: nat)
    requires p0 < |g| && q0 <= |z|
    requires ok ==> p0 < p <= |g| && q0 <= q <= |z| && Piece(t, z, q0, q)
    requires ok ==> Tokens(g[p0..], false, true) == [t] + Tokens(g[p..], false, true)
    requires ok ==> forall k | q0 <= k <= |z| && Piece(t, z, q0, k) :: k == q
    requires !ok ==> Tokens(g[p0..], false, true) != [] && Tokens(g[p0..], false, true)[0] == t
    requires !ok ==> forall k | q0 <= k <= |z| :: !Piece(t, z, q0, k)
    ensures Advance(g, p0, z, q0, ok, p, q)
  {
    hide Tokens, Piece;
    var ts := Tokens(g[p0..], false, true);
    if ok {
      OnePiece(ts, z, q0, q);
      assert ts[1..] == Tokens(g[p..], false, true);
    } else {
      NoPiece(ts, z, q0);
    }
  }

  lemma SpacesSkipped(g: string, p: nat, e: nat)
    requires p <= e <= |g| && (forall k | p <= k < e :: IsSpace(g[k])) && (e < |g| ==> !IsSpace(g[e]))
    ensures SkipSpaces(g[p..]) == g[e..]
    decreases e - p
  {
    if p < e {
      assert g[p..][1..] == g[p + 1..];
      SpacesSkipped(g, p + 1, e);
    }
  }

  method SkipSpace(s: string, i0: nat) returns (i: nat)
    requires i0 <= |s|
    ensures i0 <= i <= |s| && (forall k | i0 <= k < i :: IsSpace(s[k])) && (i < |s| ==> !IsSpace(s[i]))
  {
    i := i0;
    while i < |s| && IsSpace(s[i])
      invariant i0 <= i <= |s| && forall k | i0 <= k < i :: IsSpace(s[k])
    {
      i := i + 1;
    }
  }

  /** The white-space branch. */
  method TakeSpan(g: string, p0: nat, z: string, q0: nat) returns (ok: bool, p: nat, q: nat)
    requires p0 < |g| && q0 <= |z| && IsSpace(g[p0])
    ensures Advance(g, p0, z, q0, ok, p, q)
  {
    p, q := p0, q0;
    ok := q0 < |z| && IsSpace(z[q0]);
    assert g[p0..][1..] == g[p0 + 1..];
    if ok {
      p := SkipSpace(g, p0 + 1);
      q := SkipSpace(z, q0);
      SpacesSkipped(g, p0 + 1, p);
    }
    AdvanceOver(Span, g, p0, z, q0, ok, p, q);
  }

  /** The question-mark branch. */
  method TakeAny(g: string, p0: nat, z: string, q0: nat) returns (ok: bool, p: nat, q: nat)
    requires p0 < |g| && q0 <= |z| && g[p0] == '?'
    ensures Advance(g, p0, z, q0, ok, p, q)
  {
    p, q, ok := p0 + 1, q0 + 1, q0 < |z|;
    assert g[p0..][1..] == g[p..];
    AdvanceOver(AnyOne, g, p0, z, q0, ok, p, q);
  }

  /** The bracket branch. */
  method TakeBracket(g: string, p0: nat, z: string, q0: nat) returns (ok: bool, p: nat, q: nat)
    requires p0 < |g| && q0 <= |z| && g[p0] == '[' && IsBytes(g) && IsBytes(z)
    ensures Advance(g, p0, z, q0, ok, p, q)
  {
    hide Bracket, Seen, Signed;
    p, q, ok := p0, q0, false;
    assert g[p0..][1..] == g[p0 + 1..];
    if q0 < |z| {
      ok, p := MatchBracket(g, p0 + 1, z[q0]);
      q := q0 + 1;
    }
    AdvanceOver(Bracket(g[p0 + 1..]).0, g, p0, z, q0, ok, p, q);
  }

  /** The number branch. */
  method TakeNumber(g: string, p0: nat, z: string, q0: nat) returns (ok: bool, p: nat, q: nat)
    requires p0 < |g| && q0 <= |z| && g[p0] == '#'
    ensures Advance(g, p0, z, q0, ok, p, q)
  {
    p, q := p0 + 1, q0;
    if q + 1 < |z| && (z[q] == '-' || z[q] == '+') && IsDigit(z[q + 1]) {
      q := q + 1;
    }
    ok := q < |z| && IsDigit(z[q]);
    if ok {
      q := q + 1;
      while q < |z| && IsDigit(z[q])
        invariant DigitsAt(z, q0) < q <= |z|
        invariant forall k | DigitsAt(z, q0) <= k < q :: IsDigit(z[k])
      {
        q := q + 1;
      }
    }
    assert g[p0..][1..] == g[p..];
    AdvanceOver(Number, g, p0, z, q0, ok, p, q);
  }

  /** The branch for any other byte. */
  method TakeLiteral(g: string, p0: nat, z: string, q0: nat) returns (ok: bool, p: nat, q: nat)
    requires p0 < |g| && q0 <= |z| && !IsSpace(g[p0]) && g[p0] !in "*?[#"
    ensures Advance(g, p0, z, q0, ok, p, q)
  {
    p, q, ok := p0 + 1, q0 + 1, q0 < |z| && g[p0] == z[q0];
    assert g[p0..][1..] == g[p..];
    AdvanceOver(Literal(g[p0]), g, p0, z, q0, ok, p, q);
  }

  /** What follows a star run matches at some position from `q` on. */
  ghost predicate Somewhere(g: string, p: nat, z: string, q: nat)
    requires p <= |g| && q <= |z|
  {
    Later(Tokens(g[p..], true, true), z, q)
  }

  /** A run of stars and question marks after a star. Each question mark takes a byte. */
  method TakeRun(g: string, p0: nat, z: string, q0: nat) returns (ok: bool, p: nat, q: nat)
    requires p0 < |g| && q0 <= |z| && g[p0] == '*'
    ensures ok ==> p0 < p <= |g| && q0 <= q <= |z| && (p < |g| ==> g[p] != '*' && g[p] != '?')
    ensures ok ==> Rest(g, p0, z, q0) == Somewhere(g, p, z, q)
    ensures !ok ==> !Rest(g, p0, z, q0)
  {
    hide MatchFrom;
    ok, p, q := true, p0 + 1, q0;
    assert g[p0..][1..] == g[p..];
    while p < |g| && (g[p] == '*' || g[p] == '?')
      invariant ok && p0 < p <= |g| && q0 <= q <= |z|
      invariant Rest(g, p0, z, q0) == MatchFrom([Star] + Tokens(g[p..], true, true), z, q)
      decreases |g| - p
    {
      var more := Tokens(g[p + 1..], true, true);
      assert g[p..][1..] == g[p + 1..];
      if g[p] == '*' {
        StarStar(more, z, q);
      } else {
        StarAny(more, z, q);
        if q == |z| {
          ok := false;
          return;
        }
        q := q + 1;
      }
      p := p + 1;
    }
    StarEats(Tokens(g[p..], true, true), z, q);
  }

  lemma LiteralFrom(ts: seq<Token>, c: char, more: seq<Token>, z: string, i: nat)
    requires ts == [Literal(c)] + more && i <= |z|
    ensures MatchFrom(ts, z, i) <==> i < |z| && z[i] == c && MatchFrom(more, z, i + 1)
  {
    assert ts[1..] == more;
    if i < |z| && z[i] == c {
      OnePiece(ts, z, i, i + 1);
    } else {
      NoPiece(ts, z, i);
    }
  }

  /** After a star run, any byte but a bracket stands for itself. */
  lemma {:induction false} AfterStar(g: string, p: nat, z: string)
    requires p < |g| && g[p] !in "*?["
    ensures forall j | 0 <= j <= |z| ::
      MatchFrom(Tokens(g[p..], true, true), z, j) <==> j < |z| && z[j] == g[p] && Rest(g, p + 1, z, j + 1)
  {
    assert g[p..][1..] == g[p + 1..];
    var ts, more := Tokens(g[p..], true, true), Tokens(g[p + 1..], false, true);
    assert ts == [Literal(g[p])] + more;
    forall j | 0 <= j <= |z|
      ensures MatchFrom(ts, z, j) <==> j < |z| && z[j] == g[p] && Rest(g, p + 1, z, j + 1)
    {
      LiteralFrom(ts, g[p], more, z, j);
    }
  }

  lemma {:induction false} BracketStarts(g: string, p: nat, z: string, j: nat)
    requires p < |g| && g[p] == '[' && j <= |z|
    ensures MatchFrom(Tokens(g[p..], true, true), z, j) == Rest(g, p, z, j)
    ensures Rest(g, p, z, j) ==> j < |z|
  {
    var ts := Tokens(g[p..], true, true);
    assert ts == Tokens(g[p..], false, true);
    if j == |z| {
      var (t, rest) := Bracket(g[p..][1..]);
      assert ts[0] == t;
      NoPiece(ts, z, j);
    }
  }

  /** The matcher, on the pattern from `p0` and the text from `q0`. */
  method TestcaseGlob(g: string, p0: nat, z: string, q0: nat) returns (r: bool)
    requires p0 <= |g| && q0 <= |z| && IsBytes(g) && IsBytes(z)
    ensures r <==> Rest(g, p0, z, q0)
    decreases |g| - p0, 0
  {
    hide Advance, MatchFrom, Tokens;
    var p, q := p0, q0;
    while p < |g|
      invariant p0 <= p <= |g| && q0 <= q <= |z|
      invariant Rest(g, p, z, q) == Rest(g, p0, z, q0)
      decreases |g| - p
    {
      if g[p] == '*' {
        var ok, p1, q1 := TakeRun(g, p, z, q);
        if !ok {
          return false;
        }
        r := Seek(g, p1, z, q1);
        return;
      }
      var ok, p1, q1 := TakeOne(g, p, z, q);
      AdvanceMeans(g, p, z, q, ok, p1, q1);
      if !ok {
        return false;
      }
      p, q := p1, q1;
    }
    NothingLeft(g, p, z, q);
    q := SkipSpace(z, q);
    r := q == |z|;
  }

  lemma AdvanceMeans(g: string, p0: nat, z: string, q0: nat, ok: bool, p: nat, q: nat)
    requires p0 < |g| && q0 <= |z| && Advance(g, p0, z, q0, ok, p, q)
    ensures ok ==> p0 < p <= |g| && q0 <= q <= |z| && Rest(g, p, z, q) == Rest(g, p0, z, q0)
    ensures !ok ==> !Rest(g, p0, z, q0)
  {}

  lemma NothingLeft(g: string, p: nat, z: string, q: nat)
    requires p == |g| && q <= |z|
    ensures Rest(g, p, z, q) == Blank(z, q)
    ensures Somewhere(g, p, z, q)
  {
    assert g[p..] == [] && Blank(z, |z|);
    assert MatchFrom(Tokens(g[p..], true, true), z, |z|);
  }

  /** The branches other than the star's. */
  method TakeOne(g: string, p0: nat, z: string, q0: nat) returns (ok: bool, p: nat, q: nat)
    requires p0 < |g| && q0 <= |z| && g[p0] != '*' && IsBytes(g) && IsBytes(z)
    ensures Advance(g, p0, z, q0, ok, p, q)
  {
    hide Advance, MatchFrom, Tokens;
    if IsSpace(g[p0]) {
      ok, p, q := TakeSpan(g, p0, z, q0);
    } else if g[p0] == '?' {
      ok, p, q := TakeAny(g, p0, z, q0);
    } else if g[p0] == '[' {
      ok, p, q := TakeBracket(g, p0, z, q0);
    } else if g[p0] == '#' {
      ok, p, q := TakeNumber(g, p0, z, q0);
    } else {
      ok, p, q := TakeLiteral(g, p0, z, q0);
    }
  }

  /** The star branch once its run is over: at the end anything matches, a bracket is tried at
      every position, and for any other byte the text is searched for that byte first. */
  method Seek(g: string, p: nat, z: string, q0: nat) returns (r: bool)
    requires 0 < p <= |g| && q0 <= |z| && (p < |g| ==> g[p] != '*' && g[p] != '?') && IsBytes(g) && IsBytes(z)
    ensures r <==> Somewhere(g, p, z, q0)
    decreases |g| - p, 2
  {
    hide MatchFrom, Tokens;
    if p == |g| {
      NothingLeft(g, p, z, q0);
      return true;
    } else if g[p] == '[' {
      r := SeekBracket(g, p, z, q0);
      return;
    }
    var q := q0;
    AfterStar(g, p, z);
    while q < |z|
      invariant q0 <= q <= |z|
      invariant forall j | q0 <= j < q :: !MatchFrom(Tokens(g[p..], true, true), z, j)
      decreases |z| - q
    {
      var c2 := z[q];
      q := q + 1;
      while c2 != g[p]
        invariant q0 < q <= |z| && c2 == z[q - 1]
        invariant forall j | q0 <= j < q - 1 :: !MatchFrom(Tokens(g[p..], true, true), z, j)
        decreases |z| - q
      {
        if q == |z| {
          return false;
        }
        c2 := z[q];
        q := q + 1;
      }
      r := TestcaseGlob(g, p + 1, z, q);
      if r {
        return;
      }
    }
    return false;
  }

  method SeekBracket(g: string, p: nat, z: string, q0: nat) returns (r: bool)
    requires p < |g| && q0 <= |z| && g[p] == '[' && IsBytes(g) && IsBytes(z)
    ensures r <==> Somewhere(g, p, z, q0)
    decreases |g| - p, 1
  {
    hide MatchFrom, Tokens;
    forall j | 0 <= j <= |z|
      ensures MatchFrom(Tokens(g[p..], true, true), z, j) == Rest(g, p, z, j) && (Rest(g, p, z, j) ==> j < |z|)
    {
      BracketStarts(g, p, z, j);
    }
    var q := q0;
    while q < |z|
      invariant q0 <= q <= |z|
      invariant forall j | q0 <= j < q :: !Rest(g, p, z, j)
      decreases |z| - q
    {
      var here := TestcaseGlob(g, p, z, q);
      if here {
        return true;
      }
      q := q + 1;
    }
    return false;
  }

  /** The matcher on a whole pattern and text decides whether the text can be cut into the pieces
      of the pattern's tokens, with the quirk. */
  method GlobMatches(g: string, z: string) returns (r: bool)
    requires IsBytes(g) && IsBytes(z)
    ensures r <==> Matches(Tokens(g, false, true), z)
    ensures PlainStars(Tokens(g, false, false), false) ==>
      (r ==> Allowed(Tokens(g, false, false), z)) && (!Clash(Tokens(g, false, false)) ==> (r <==> Allowed(Tokens(g, false, false), z)))
  {
    assert g[0..] == g;
    r := TestcaseGlob(g, 0, z, 0);
    MatchIsCuts(Tokens(g, false, true), z);
    if PlainStars(Tokens(g, false, false), false) {
      CodeKeepsRules(g, z);
    }
  }

  // ---- The quirk against the documented rules ----

  /** No run of stars and question marks that begins with a star comes right before white space or `#`. */
  predicate PlainStars(ts: seq<Token>, star: bool) {
    if ts == [] then true
    else !(star && (ts[0].Span? || ts[0].Number?)) && PlainStars(ts[1..], ts[0].Star? || (star && ts[0].AnyOne?))
  }

  /** Where reading goes on behind the first token, and whether a star run is then before it. */
  function Onward(g: string, star: bool): (r: (string, bool))
    requires g != []
    ensures |r.0| < |g|
  {
    if IsSpace(g[0]) then (SkipSpaces(g[1..]), false)
    else if g[0] == '*' then (g[1..], true)
    else if g[0] == '?' then (g[1..], star)
    else if g[0] == '[' then (Bracket(g[1..]).1, false)
    else (g[1..], false)
  }

  lemma {:induction false} TokensGoOn(g: string, star: bool)
    requires g != [] && !(star && (IsSpace(g[0]) || g[0] == '#'))
    ensures var (a, b) := (Tokens(g, star, true), Tokens(g, star, false));
      var (rest, after) := Onward(g, star);
      && a != [] && b != [] && a[0] == b[0]
      && a[1..] == Tokens(rest, after, true) && b[1..] == Tokens(rest, after, false)
      && after == (b[0].Star? || (star && b[0].AnyOne?))
      && !(star && (b[0].Span? || b[0].Number?))
  {}

  lemma {:induction false} TokensEnd(star: bool, quirk: bool)
    ensures Tokens([], star, quirk) == []
  {}

  lemma {:induction false} TokensQuirk(g: string)
    requires g != [] && (IsSpace(g[0]) || g[0] == '#')
    ensures Tokens(g, true, true) != [] && Tokens(g, true, true)[0] == Literal(g[0])
  {}

  /** The code reads a pattern as documented exactly if the pattern's stars are plain. */
  lemma {:induction false} QuirkShows(g: string, star: bool)
    ensures Tokens(g, star, true) == Tokens(g, star, false) <==> PlainStars(Tokens(g, star, false), star)
    decreases |g|
  {
    if g != [] {
      var a, b := Tokens(g, star, true), Tokens(g, star, false);
      if star && (IsSpace(g[0]) || g[0] == '#') {
        assert a[0].Literal? && (b[0].Span? || b[0].Number?);
      } else {
        var (rest, after) := Onward(g, star);
        TokensGoOn(g, star);
        QuirkShows(rest, after);
      }
    }
  }

  /** If the stars are not plain, the code wants a byte of white space or a `#` in the text. */
  lemma {:induction false} QuirkWants(g: string, star: bool) returns (k: nat)
    requires !PlainStars(Tokens(g, star, false), star)
    ensures k < |Tokens(g, star, true)|
    ensures var t := Tokens(g, star, true)[k]; t.Literal? && (IsSpace(t.c) || t.c == '#')
    decreases |g|
  {
    var a, b := Tokens(g, star, true), Tokens(g, star, false);
    hide Tokens, Onward;
    TokensEnd(star, false);
    if star && (IsSpace(g[0]) || g[0] == '#') {
      TokensQuirk(g);
      k := 0;
    } else {
      var (rest, after) := Onward(g, star);
      TokensGoOn(g, star);
      k := QuirkWants(rest, after);
      assert a[k + 1] == a[1..][k];
      k := k + 1;
    }
  }

  /** So with a pattern whose stars are not plain there is a byte, white space or `#`, without which
      the code accepts no text, whatever the documented rules say of it. */
  lemma {:induction false} QuirkRefuses(g: string) returns (c: char)
    requires !PlainStars(Tokens(g, false, false), false)
    ensures IsSpace(c) || c == '#'
    ensures forall z: string | c !in z :: !Matches(Tokens(g, false, true), z)
  {
    var ts := Tokens(g, false, true);
    var k := QuirkWants(g, false);
    hide Tokens, IsSpace;
    c := ts[k].c;
    forall z: string | c !in z ensures !Matches(ts, z) {
      if Matches(ts, z) {
        var cuts: seq<nat> :| CutBy(cuts, ts, z, 0);
        PieceOf(cuts, ts, z, k);
      }
    }
  }

  lemma PieceOf(cuts: seq<nat>, ts: seq<Token>, z: string, k: nat)
    requires k < |ts| && CutBy(cuts, ts, z, 0)
    ensures Piece(ts[k], z, cuts[k], cuts[k + 1])
  {}

  lemma AllowedPieceOf(cuts: seq<nat>, ts: seq<Token>, z: string, k: nat)
    requires k < |ts| && AllowedBy(cuts, ts, z, 0)
    ensures AllowedPiece(ts[k], z, cuts[k], cuts[k + 1])
  {}

  // ---- The documented rules ----

  /** The same pieces as the comment gives them: a number is any digits with an optional sign in front,
      and a span any white space, however much of either follows. */
  predicate AllowedPiece(t: Token, z: string, i: nat, j: nat) {
    i <= j <= |z| &&
    match t
    case Span => i < j && forall k | i <= k < j :: IsSpace(z[k])
    case Number => DigitsAt(z, i) < j && forall k | DigitsAt(z, i) <= k < j :: IsDigit(z[k])
    case _ => Piece(t, z, i, j)
  }

  ghost predicate AllowedBy(cuts: seq<nat>, ts: seq<Token>, z: string, i: nat) {
    && |cuts| == |ts| + 1 && cuts[0] == i && cuts[|ts|] <= |z|
    && (forall k | 0 <= k < |ts| :: AllowedPiece(ts[k], z, cuts[k], cuts[k + 1]))
    && Blank(z, cuts[|ts|])
  }

  /** The documented rules let the tokens match the text. */
  ghost predicate Allowed(ts: seq<Token>, z: string) {
    exists cuts: seq<nat> :: AllowedBy(cuts, ts, z, 0)
  }

  ghost predicate AllowedFrom(ts: seq<Token>, z: string, i: nat)
    requires i <= |z|
    decreases |ts|
  {
    if ts == [] then Blank(z, i)
    else exists j | i <= j <= |z| :: AllowedPiece(ts[0], z, i, j) && AllowedFrom(ts[1..], z, j)
  }

  lemma {:induction false} CutsAllow(cuts: seq<nat>, ts: seq<Token>, z: string, i: nat)
    requires i <= |z| && AllowedBy(cuts, ts, z, i)
    ensures AllowedFrom(ts, z, i)
    decreases |ts|
  {
    if ts != [] {
      assert AllowedPiece(ts[0], z, cuts[0], cuts[1]);
      forall k | 0 <= k < |ts[1..]| ensures AllowedPiece(ts[1..][k], z, cuts[1..][k], cuts[1..][k + 1]) {
        assert AllowedPiece(ts[k + 1], z, cuts[k + 1], cuts[k + 2]);
      }
      CutsAllow(cuts[1..], ts[1..], z, cuts[1]);
    }
  }

  lemma {:induction false} AllowedGivesCuts(ts: seq<Token>, z: string, i: nat) returns (cuts: seq<nat>)
    requires i <= |z| && AllowedFrom(ts, z, i)
    ensures AllowedBy(cuts, ts, z, i)
    decreases |ts|
  {
    if ts == [] {
      cuts := [i];
    } else {
      var j :| i <= j <= |z| && AllowedPiece(ts[0], z, i, j) && AllowedFrom(ts[1..], z, j);
      var more := AllowedGivesCuts(ts[1..], z, j);
      cuts := [i] + more;
      forall k | 0 <= k < |ts| ensures AllowedPiece(ts[k], z, cuts[k], cuts[k + 1]) {
        if k > 0 {
          assert AllowedPiece(ts[1..][k - 1], z, more[k - 1], more[k]);
        }
      }
    }
  }

  lemma {:induction false} AllowedIsCuts(ts: seq<Token>, z: string)
    ensures AllowedFrom(ts, z, 0) <==> Allowed(ts, z)
  {
    if AllowedFrom(ts, z, 0) {
      var cuts := AllowedGivesCuts(ts, z, 0);
    }
    if Allowed(ts, z) {
      var cuts: seq<nat> :| AllowedBy(cuts, ts, z, 0);
      CutsAllow(cuts, ts, z, 0);
    }
  }

  /** Longest pieces are pieces. */
  lemma LongestIsAllowed(ts: seq<Token>, z: string)
    requires Matches(ts, z)
    ensures Allowed(ts, z)
  {
    var cuts: seq<nat> :| CutBy(cuts, ts, z, 0);
    forall k | 0 <= k < |ts| ensures AllowedPiece(ts[k], z, cuts[k], cuts[k + 1]) {
      PieceOf(cuts, ts, z, k);
    }
    assert AllowedBy(cuts, ts, z, 0);
  }

  // ---- When the longest pieces will do ----

  predicate Kind(c: char, digit: bool) { if digit then IsDigit(c) else IsSpace(c) }

  /** The token can match a piece that starts with a digit, or with white space. */
  ghost predicate Takes(t: Token, digit: bool) {
    match t
    case Span => !digit
    case Star => false
    case AnyOne => true
    case Number => digit
    case Literal(c) => Kind(c, digit)
    case OneOf(invert, items) => exists c: char :: Kind(c, digit) && Seen(items, Signed(c)) != invert
    case Never => false
  }

  /** The first token behind any stars can. */
  ghost predicate FirstTakes(ts: seq<Token>, digit: bool) {
    ts != [] && if ts[0].Star? then FirstTakes(ts[1..], digit) else Takes(ts[0], digit)
  }

  /** A number is followed, over any stars, by a token that could take one of its digits, or a span by one
      that could take some of its white space. */
  ghost predicate Clash(ts: seq<Token>) {
    ts != [] && (
      || (ts[0].Number? && FirstTakes(ts[1..], true))
      || (ts[0].Span? && FirstTakes(ts[1..], false))
      || Clash(ts[1..]))
  }

  lemma RunEnd(z: string, j: nat, digit: bool) returns (e: nat)
    requires j <= |z|
    ensures j <= e <= |z| && (forall k | j <= k < e :: Kind(z[k], digit)) && (e < |z| ==> !Kind(z[e], digit))
  {
    e := j;
    while e < |z| && Kind(z[e], digit)
      invariant j <= e <= |z| && forall k | j <= k < e :: Kind(z[k], digit)
    {
      e := e + 1;
    }
  }

  /** Tokens that cannot take them match as well behind the digits, or the white space, that follow. */
  lemma {:induction false} AllowedBehind(ts: seq<Token>, z: string, j: nat, e: nat, digit: bool)
    requires j <= e <= |z| && (forall k | j <= k < e :: Kind(z[k], digit))
    requires !FirstTakes(ts, digit) && AllowedFrom(ts, z, j)
    ensures AllowedFrom(ts, z, e)
    decreases |ts|
  {
    if j < e {
      assert Kind(z[j], digit);
      if ts == [] {
        assert Blank(z, e);
      } else {
        var k :| j <= k <= |z| && AllowedPiece(ts[0], z, j, k) && AllowedFrom(ts[1..], z, k);
        if ts[0].Star? {
          if k < e {
            AllowedBehind(ts[1..], z, k, e, digit);
            assert AllowedPiece(ts[0], z, e, e);
          } else {
            assert AllowedPiece(ts[0], z, e, k);
          }
        }
      }
    }
  }

  /** Without such a clash a text that the rules allow has longest pieces too. */
  lemma {:induction false} LongestWillDo(ts: seq<Token>, z: string, i: nat)
    requires i <= |z| && !Clash(ts) && AllowedFrom(ts, z, i)
    ensures MatchFrom(ts, z, i)
    decreases |ts|
  {
    if ts != [] {
      var j :| i <= j <= |z| && AllowedPiece(ts[0], z, i, j) && AllowedFrom(ts[1..], z, j);
      var e := j;
      if ts[0].Number? || ts[0].Span? {
        e := RunEnd(z, j, ts[0].Number?);
        AllowedBehind(ts[1..], z, j, e, ts[0].Number?);
      }
      assert Piece(ts[0], z, i, e);
      LongestWillDo(ts[1..], z, e);
    }
  }

  // ---- Texts that tell the two apart ----

  predicate NoBracket(ts: seq<Token>) { forall k | 0 <= k < |ts| :: !ts[k].OneOf? && !ts[k].Never? }

  /** No literal of the documented rules is white space or `#`. */
  predicate NoSpecial(ts: seq<Token>) { forall k | 0 <= k < |ts| && ts[k].Literal? :: !IsSpace(ts[k].c) && ts[k].c != '#' }

  lemma {:induction false} DocumentedTokens(g: string, star: bool)
    ensures NoSpecial(Tokens(g, star, false))
    ensures '[' !in g ==> NoBracket(Tokens(g, star, false))
    decreases |g|
  {
    if g != [] {
      var (rest, after) := Onward(g, star);
      var ts := Tokens(g, star, false);
      DocumentedTokens(rest, after);
      DocumentedGoOn(g, star);
      OnwardIn(g, star);
      hide Tokens, Onward;
      forall k | 0 <= k < |ts|
        ensures ts[k].Literal? ==> !IsSpace(ts[k].c) && ts[k].c != '#'
        ensures '[' !in g ==> !ts[k].OneOf? && !ts[k].Never?
      {
        assert k > 0 ==> ts[k] == ts[1..][k - 1];
      }
    }
  }

  lemma {:induction false} OnwardIn(g: string, star: bool)
    requires g != []
    ensures '[' !in g ==> '[' !in Onward(g, star).0
  {
    SkipSpacesIn(g[1..], '[');
  }

  lemma {:induction false} SkipSpacesIn(s: string, c: char)
    ensures c in SkipSpaces(s) ==> c in s
  {
    if s != [] {
      SkipSpacesIn(s[1..], c);
    }
  }

  lemma {:induction false} DocumentedGoOn(g: string, star: bool)
    requires g != []
    ensures var ts := Tokens(g, star, false);
      var (rest, after) := Onward(g, star);
      && ts != [] && ts[1..] == Tokens(rest, after, false)
      && (ts[0].Literal? ==> !IsSpace(ts[0].c) && ts[0].c != '#')
      && (ts[0].OneOf? || ts[0].Never? ==> g[0] == '[')
  {}

  /** The shortest text that the rules allow, one byte for each token but the stars: `w` for a span, and
      for a question mark the byte before. */
  function Shortest(ts: seq<Token>, w: char, prev: char): (z: string) {
    if ts == [] then []
    else if ts[0].Star? then Shortest(ts[1..], w, prev)
    else [ByteFor(ts[0], w, prev)] + Shortest(ts[1..], w, ByteFor(ts[0], w, prev))
  }

  function ByteFor(t: Token, w: char, prev: char): (c: char) {
    match t
    case Span => w
    case AnyOne => prev
    case Number => '5'
    case Literal(c) => c
    case _ => 'x'
  }

  lemma {:induction false} ShortestAllowed(ts: seq<Token>, w: char, prev: char, z: string, i: nat)
    requires NoBracket(ts) && IsSpace(w) && i <= |z| && z[i..] == Shortest(ts, w, prev)
    ensures AllowedFrom(ts, z, i)
    decreases |ts|
  {
    if ts != [] {
      if ts[0].Star? {
        ShortestAllowed(ts[1..], w, prev, z, i);
        assert AllowedPiece(ts[0], z, i, i);
      } else {
        var b := ByteFor(ts[0], w, prev);
        FirstByte(z, i, b, Shortest(ts[1..], w, b));
        ShortestAllowed(ts[1..], w, b, z, i + 1);
        assert AllowedPiece(ts[0], z, i, i + 1);
      }
    }
  }

  lemma FirstByte(z: string, i: nat, b: char, more: string)
    requires i <= |z| && z[i..] == [b] + more
    ensures i < |z| && z[i] == b && z[i + 1..] == more
  {
    assert z[i..][0] == z[i] && z[i..][1..] == z[i + 1..];
  }

  lemma {:induction false} ShortestLacks(ts: seq<Token>, w: char, prev: char, c: char)
    requires NoBracket(ts) && NoSpecial(ts) && (IsSpace(c) || c == '#') && w != c && prev != c
    ensures c !in Shortest(ts, w, prev)
    decreases |ts|
  {
    if ts != [] {
      ShortestLacks(ts[1..], w, if ts[0].Star? then prev else ByteFor(ts[0], w, prev), c);
    }
  }

  function Weight(ts: seq<Token>): (n: nat) {
    if ts == [] then 0 else (if ts[0].Star? then 0 else 1) + Weight(ts[1..])
  }

  lemma {:induction false} ShortestWeight(ts: seq<Token>, w: char, prev: char)
    ensures |Shortest(ts, w, prev)| == Weight(ts)
    decreases |ts|
  {
    if ts != [] {
      ShortestWeight(ts[1..], w, if ts[0].Star? then prev else ByteFor(ts[0], w, prev));
    }
  }

  /** Every token but a star takes a byte, and exactly one if there are no more. */
  lemma {:induction false} TightFit(ts: seq<Token>, z: string, i: nat)
    requires i <= |z| && MatchFrom(ts, z, i)
    ensures |z| - i >= Weight(ts)
    ensures |z| - i == Weight(ts) && ts != [] ==>
      var n := if ts[0].Star? then i else i + 1;
      n <= |z| && Piece(ts[0], z, i, n) && MatchFrom(ts[1..], z, n)
    decreases |ts|
  {
    if ts != [] {
      var j :| i <= j <= |z| && Piece(ts[0], z, i, j) && MatchFrom(ts[1..], z, j);
      TightFit(ts[1..], z, j);
    }
  }

  lemma {:induction false} FirstOfShortest(ts: seq<Token>, w: char, prev: char, digit: bool)
    requires NoBracket(ts) && IsSpace(w) && Kind(prev, digit) && FirstTakes(ts, digit)
    ensures Shortest(ts, w, prev) != [] && Kind(Shortest(ts, w, prev)[0], digit)
    decreases |ts|
  {
    if ts[0].Star? {
      FirstOfShortest(ts[1..], w, prev, digit);
    }
  }

  /** Where tokens clash, the shortest text has no longest pieces. */
  lemma {:induction false} ShortestRefused(ts: seq<Token>, w: char, prev: char, z: string, i: nat)
    requires NoBracket(ts) && IsSpace(w) && i <= |z| && z[i..] == Shortest(ts, w, prev) && Clash(ts)
    ensures !MatchFrom(ts, z, i)
    decreases |ts|
  {
    ShortestWeight(ts, w, prev);
    if MatchFrom(ts, z, i) {
      TightFit(ts, z, i);
      if ts[0].Star? {
        ShortestRefused(ts[1..], w, prev, z, i);
      } else {
        var b := ByteFor(ts[0], w, prev);
        var more := Shortest(ts[1..], w, b);
        FirstByte(z, i, b, more);
        if Clash(ts[1..]) {
          ShortestRefused(ts[1..], w, b, z, i + 1);
        } else {
          FirstOfShortest(ts[1..], w, b, ts[0].Number?);
        }
      }
    }
  }

  // ---- The code against the documented rules ----

  /** Where the stars are plain, the code accepts only what the rules allow, and all of it if no tokens clash. */
  lemma {:induction false} CodeKeepsRules(g: string, z: string)
    requires PlainStars(Tokens(g, false, false), false)
    ensures Matches(Tokens(g, false, true), z) ==> Allowed(Tokens(g, false, false), z)
    ensures !Clash(Tokens(g, false, false)) ==> (Matches(Tokens(g, false, true), z) <==> Allowed(Tokens(g, false, false), z))
  {
    QuirkShows(g, false);
    var ts := Tokens(g, false, false);
    hide *;
    if Matches(ts, z) {
      LongestIsAllowed(ts, z);
    }
    if !Clash(ts) && Allowed(ts, z) {
      AllowedIsCuts(ts, z);
      LongestWillDo(ts, z, 0);
      MatchIsCuts(ts, z);
    }
  }

  /** For a pattern without brackets the code accepts the texts that the documented rules allow exactly if
      its stars are plain and none of its tokens clash. */
  lemma {:induction false} CodeIsRules(g: string)
    requires '[' !in g
    ensures (forall z: string :: Matches(Tokens(g, false, true), z) <==> Allowed(Tokens(g, false, false), z))
      <==> PlainStars(Tokens(g, false, false), false) && !Clash(Tokens(g, false, false))
  {
    var ts := Tokens(g, false, false);
    DocumentedTokens(g, false);
    if !PlainStars(ts, false) {
      var c := QuirkRefuses(g);
      var w := if c == ' ' then '\t' else ' ';
      var z := Shortest(ts, w, 'x');
      assert IsSpace(w) && 'x' != c;
      hide *;
      ShortestLacks(ts, w, 'x', c);
      WholeSlice(z);
      ShortestAllowed(ts, w, 'x', z, 0);
      AllowedIsCuts(ts, z);
      assert Allowed(ts, z) && !Matches(Tokens(g, false, true), z);
    } else if Clash(ts) {
      QuirkShows(g, false);
      var z := Shortest(ts, ' ', 'x');
      assert IsSpace(' ');
      hide *;
      WholeSlice(z);
      ShortestAllowed(ts, ' ', 'x', z, 0);
      AllowedIsCuts(ts, z);
      ShortestRefused(ts, ' ', 'x', z, 0);
      MatchIsCuts(ts, z);
      assert Allowed(ts, z) && !Matches(ts, z);
    } else {
      hide *;
      forall z: string ensures Matches(Tokens(g, false, true), z) <==> Allowed(ts, z) {
        CodeKeepsRules(g, z);
      }
    }
  }

  /** The code takes both bytes for the number, and both blanks for the span. */
  lemma ClashIsReal()
    ensures Tokens("#*5", false, false) == Tokens("#*5", false, true) == [Number, Star, Literal('5')]
    ensures Tokens(" ?", false, false) == Tokens(" ?", false, true) == [Span, AnyOne]
    ensures Allowed([Number, Star, Literal('5')], "15") && !Matches([Number, Star, Literal('5')], "15")
    ensures Allowed([Span, AnyOne], "  ") && !Matches([Span, AnyOne], "  ")
  {
    ClashTokens();
    var ts := [Number, Star, Literal('5')];
    assert AllowedBy([0, 1, 1, 2], ts, "15", 0) by {
      assert AllowedPiece(ts[0], "15", 0, 1) && AllowedPiece(ts[1], "15", 1, 1) && AllowedPiece(ts[2], "15", 1, 2);
    }
    if cuts: seq<nat> :| CutBy(cuts, ts, "15", 0) {
      PieceOf(cuts, ts, "15", 0);
      PieceOf(cuts, ts, "15", 1);
    }
    var us := [Span, AnyOne];
    assert AllowedBy([0, 1, 2], us, "  ", 0) by {
      assert AllowedPiece(us[0], "  ", 0, 1) && AllowedPiece(us[1], "  ", 1, 2);
    }
    if cuts: seq<nat> :| CutBy(cuts, us, "  ", 0) {
      PieceOf(cuts, us, "  ", 0);
      PieceOf(cuts, us, "  ", 1);
    }
  }

  lemma ClashTokens()
    ensures Tokens("#*5", false, false) == Tokens("#*5", false, true) == [Number, Star, Literal('5')]
    ensures Tokens(" ?", false, false) == Tokens(" ?", false, true) == [Span, AnyOne]
  {
    assert "#*5"[1..] == "*5" && "*5"[1..] == "5" && "5"[1..] == "";
    assert " ?"[1..] == "?" && "?"[1..] == "";
  }

  /** Both ways round: a number after a star is not seen, and a `#` is taken for one. */
  lemma QuirkIsReal()
    ensures Tokens("*#", false, false) == [Star, Number] && Tokens("*#", false, true) == [Star, Literal('#')]
    ensures Allowed([Star, Number], "5") && !Matches([Star, Literal('#')], "5")
    ensures !Allowed([Star, Number], "#") && Matches([Star, Literal('#')], "#")
  {
    assert "*#"[1..] == "#" && "#"[1..] == "";
    var doc, code := [Star, Number], [Star, Literal('#')];
    assert AllowedBy([0, 0, 1], doc, "5", 0) by {
      assert AllowedPiece(doc[0], "5", 0, 0) && AllowedPiece(doc[1], "5", 0, 1);
    }
    assert CutBy([0, 0, 1], code, "#", 0) by {
      assert Piece(code[0], "#", 0, 0) && Piece(code[1], "#", 0, 1);
    }
    if cuts: seq<nat> :| CutBy(cuts, code, "5", 0) {
      PieceOf(cuts, code, "5", 1);
    }
    if cuts: seq<nat> :| AllowedBy(cuts, doc, "#", 0) {
      AllowedPieceOf(cuts, doc, "#", 1);
    }
  }

  /** The same of white space: only the very byte in the pattern will do. */
  lemma SpaceQuirkIsReal()
    ensures Tokens("* ", false, false) == [Star, Span] && Tokens("* ", false, true) == [Star, Literal(' ')]
    ensures Allowed([Star, Span], "\t") && !Matches([Star, Literal(' ')], "\t")
  {
    assert "* "[1..] == " " && " "[1..] == "";
    var doc, code := [Star, Span], [Star, Literal(' ')];
    assert AllowedBy([0, 0, 1], doc, "\t", 0) by {
      assert AllowedPiece(doc[0], "\t", 0, 0) && AllowedPiece(doc[1], "\t", 0, 1);
    }
    if cuts: seq<nat> :| CutBy(cuts, code, "\t", 0) {
      PieceOf(cuts, code, "\t", 1);
    }
  }

  /** A pattern that nothing can match shows no quirk, though its stars are not plain. */
  lemma HiddenQuirk(z: string)
    ensures var g := "*#[";
      !PlainStars(Tokens(g, false, false), false)
      && !Matches(Tokens(g, false, true), z) && !Allowed(Tokens(g, false, false), z)
  {
    var g := "*#[";
    assert g[1..] == "#[" && "#["[1..] == "[" && "["[1..] == "";
    var code, doc := Tokens(g, false, true), Tokens(g, false, false);
    assert code == [Star, Literal('#'), Never];
    assert doc == [Star, Number, Never];
    if cuts: seq<nat> :| CutBy(cuts, code, z, 0) {
      PieceOf(cuts, code, z, 2);
    }
    if cuts: seq<nat> :| AllowedBy(cuts, doc, z, 0) {
      AllowedPieceOf(cuts, doc, z, 2);
    }
  }
}
