/** What the parts of a testcase_glob() pattern match, in bytes. */
module GlobMeaning {
  import opened Seqs
  import opened Chars
  import opened Glob

  // ---- Single tokens ----

  lemma OneToken(t: Token, z: string)
    ensures Matches([t], z) <==> exists j | 0 <= j <= |z| :: Piece(t, z, 0, j) && AllSpace(z[j..])
  {
    hide Piece;
    MatchIsCuts([t], z);
    assert [t][1..] == [];
    forall j | 0 <= j <= |z| ensures MatchFrom([], z, j) == AllSpace(z[j..]) {
      assert MatchFrom([], z, j) == Blank(z, j);
      assert forall k | j <= k < |z| :: z[k] == z[j..][k - j];
    }
  }

  /** A byte with no meaning of its own matches itself; white space may follow. */
  lemma ByteMatches(c: char, z: string)
    requires !IsSpace(c) && c != '*' && c != '?' && c != '[' && c != '#'
    ensures Matches(Tokens([c], false, true), z) <==> z != [] && z[0] == c && AllSpace(z[1..])
  {
    TokenOf(c, Literal(c));
    OneToken(Literal(c), z);
    assert z != [] && z[0] == c ==> Piece(Literal(c), z, 0, 1);
  }

  lemma TokenOf(c: char, t: Token)
    requires c != '[' && Tokens([c], false, true) != [] && Tokens([c], false, true)[0] == t
    ensures Tokens([c], false, true) == [t]
  {
    assert [c][1..] == [] && SkipSpaces([]) == [];
    assert Tokens([], false, true) == [] && Tokens([], true, true) == [];
  }

  lemma AnyMatches(z: string)
    ensures Matches(Tokens("?", false, true), z) <==> z != [] && AllSpace(z[1..])
    ensures Matches(Tokens("*", false, true), z)
  {
    TokenOf('?', AnyOne);
    OneToken(AnyOne, z);
    assert z != [] ==> Piece(AnyOne, z, 0, 1);
    TokenOf('*', Star);
    OneToken(Star, z);
    assert Piece(Star, z, 0, |z|);
  }

  /** Any white space matches any other. */
  lemma SpaceMatches(c: char, z: string)
    requires IsSpace(c)
    ensures Matches(Tokens([c], false, true), z) <==> z != [] && AllSpace(z)
  {
    TokenOf(c, Span);
    OneToken(Span, z);
    if z != [] && AllSpace(z) {
      assert Piece(Span, z, 0, |z|);
    }
    if j :| 0 <= j <= |z| && Piece(Span, z, 0, j) && AllSpace(z[j..]) {
      assert forall k | j <= k < |z| :: z[k] == z[j..][k - j];
    }
  }

  /** Digits from `i` to `j`, and at most a sign before them. */
  predicate IsNumber(z: string, i: nat, j: nat) {
    && i < j <= |z| && (i == 0 || (i == 1 && (z[0] == '+' || z[0] == '-')))
    && forall k | i <= k < j :: '0' <= z[k] <= '9'
  }

  lemma NumberMatches(z: string)
    ensures Matches(Tokens("#", false, true), z) <==> exists i: nat, j: nat :: IsNumber(z, i, j) && AllSpace(z[j..])
  {
    TokenOf('#', Number);
    OneToken(Number, z);
    if i: nat, j: nat :| IsNumber(z, i, j) && AllSpace(z[j..]) {
      assert j < |z| ==> IsSpace(z[j..][0]);
      assert DigitsAt(z, 0) == i;
      assert Piece(Number, z, 0, j);
    }
    if j :| 0 <= j <= |z| && Piece(Number, z, 0, j) && AllSpace(z[j..]) {
      assert IsNumber(z, DigitsAt(z, 0), j);
    }
  }

  // ---- Brackets ----

  /** What stands in a bracket: a byte, or two with a hyphen between them. */
  datatype Part = One(c: char) | Between(lo: char, hi: char) {
    function Text(): (s: string) {
      match this
      case One(c) => [c]
      case Between(lo, hi) => [lo, '-', hi]
    }

    /** The closing bracket has a meaning of its own; a range starts with an ASCII byte. */
    predicate Plain() {
      match this
      case One(c) => c != ']' && c as int < 256
      case Between(lo, hi) => lo != ']' && hi != ']' && 0 < lo as int < 128 && hi as int < 256
    }

    predicate Hyphen() { Text()[0] == '-' }

    /** The first byte of a range counts in any case. Bytes from 128 on are negative. */
    predicate Holds(x: char) {
      match this
      case One(c) => x == c
      case Between(lo, hi) => x == lo || (lo <= x <= hi && hi as int < 128)
    }
  }

  function PartsText(ps: seq<Part>): (s: string) { if ps == [] then [] else ps[0].Text() + PartsText(ps[1..]) }

  /** A hyphen is a byte only where a bracket begins. */
  predicate Plains(ps: seq<Part>) { forall k | 0 <= k < |ps| :: ps[k].Plain() && (k > 0 ==> !ps[k].Hyphen()) }

  predicate Holds(ps: seq<Part>, x: char) { exists k | 0 <= k < |ps| :: ps[k].Holds(x) }

  lemma SeenFirst(item: Item, items: seq<Item>, x: int)
    ensures Seen([item] + items, x) <==> item.Has(x) || Seen(items, x)
  {
    var s := [item] + items;
    assert s[0] == item && forall k | 0 <= k < |items| :: s[k + 1] == items[k];
    if k :| 0 <= k < |items| && items[k].Has(x) {
      assert s[k + 1].Has(x);
    }
  }

  lemma {:induction false} HoldsFirst(ps: seq<Part>, x: char)
    requires ps != []
    ensures Holds(ps, x) <==> ps[0].Holds(x) || Holds(ps[1..], x)
  {
    if k :| 0 <= k < |ps| && ps[k].Holds(x) {
      assert k > 0 ==> ps[1..][k - 1] == ps[k];
    }
    if k :| 0 <= k < |ps[1..]| && ps[1..][k].Holds(x) {
      assert ps[k + 1] == ps[1..][k];
    }
  }

  /** The items of a bracket hold what its parts hold. */
  lemma {:induction false} PartsRead(ps: seq<Part>, t: string, prior: int, x: char)
    requires Plains(ps) && x as int < 256 && (ps != [] && ps[0].Hyphen() ==> prior <= 0)
    ensures var body := SetItems(PartsText(ps) + "]" + t, prior);
      body.closed && body.rest == t && (Seen(body.items, Signed(x)) <==> Holds(ps, x))
    decreases |ps|
  {
    var g := PartsText(ps) + "]" + t;
    if ps == [] {
      assert g == "]" + t && g[1..] == t;
    } else {
      var p, more := ps[0], PartsText(ps[1..]) + "]" + t;
      assert p.Plain() && Plains(ps[1..]) && (|ps| > 1 ==> !ps[1].Hyphen());
      assert g == p.Text() + more;
      HoldsFirst(ps, x);
      hide Holds, Seen, PartsText;
      match p
      case One(c) =>
        assert g[1..] == more;
        PartsRead(ps[1..], t, Signed(c), x);
        SeenFirst(Single(Signed(c)), SetItems(more, Signed(c)).items, Signed(x));
      case Between(lo, hi) =>
        var h := ['-', hi] + more;
        assert g[1..] == h && h[2..] == more;
        PartsRead(ps[1..], t, 0, x);
        SeenFirst(Range(Signed(lo), Signed(hi)), SetItems(more, 0).items, Signed(x));
        SeenFirst(Single(Signed(lo)), SetItems(h, Signed(lo)).items, Signed(x));
    }
  }

  /** A bracket of such parts, with a caret to invert it and a closing bracket in front as a byte. */
  function BracketText(ps: seq<Part>, invert: bool, first: bool): (g: string) {
    "[" + (if invert then "^" else "") + (if first then "]" else "") + PartsText(ps) + "]"
  }

  /** It matches one byte: one that a part holds, or none does when it is inverted. */
  lemma BracketMatches(ps: seq<Part>, invert: bool, first: bool, z: string)
    requires Plains(ps) && (ps != [] || first) && forall k | 0 <= k < |z| :: z[k] as int < 256
    requires !invert && !first ==> ps[0].Text()[0] != '^'
    ensures Matches(Tokens(BracketText(ps, invert, first), false, true), z) <==>
      z != [] && AllSpace(z[1..]) && (Holds(ps, z[0]) || (first && z[0] == ']')) != invert
  {
    var g := BracketText(ps, invert, first);
    var (t, rest) := Bracket(g[1..]);
    if z != [] {
      BracketRead(ps, invert, first, z[0]);
    } else {
      BracketRead(ps, invert, first, 'a');
    }
    hide Bracket, Holds, Seen;
    assert Tokens(g, false, true) == [t] by {
      assert g[0] == '[' && Tokens([], false, true) == [];
    }
    OneToken(t, z);
    assert z != [] && Seen(t.items, Signed(z[0])) != invert ==> Piece(t, z, 0, 1);
  }

  lemma {:induction false} BracketRead(ps: seq<Part>, invert: bool, first: bool, x: char)
    requires Plains(ps) && (ps != [] || first) && x as int < 256
    requires !invert && !first ==> ps[0].Text()[0] != '^'
    ensures var (t, rest) := Bracket(BracketText(ps, invert, first)[1..]);
      t.OneOf? && t.invert == invert && rest == [] && (Seen(t.items, Signed(x)) <==> Holds(ps, x) || (first && x == ']'))
  {
    var g, body := BracketText(ps, invert, first)[1..], PartsText(ps) + "]";
    PartsRead(ps, [], 0, x);
    SeenFirst(Single(']' as int), SetItems(body, 0).items, Signed(x));
    if ps != [] {
      FirstByte(ps);
    }
    hide Seen, Holds, SetItems, PartsText, Bracket;
    BracketTail(ps, invert, first);
    Empty(body);
    Empty(SetItems(body, 0).items);
    BracketSteps(g, invert, first, body);
  }

  lemma BracketTail(ps: seq<Part>, invert: bool, first: bool)
    ensures BracketText(ps, invert, first)[1..] ==
      (if invert then ['^'] else []) + ((if first then [']'] else []) + (PartsText(ps) + "]"))
  {
    hide PartsText;
  }

  lemma {:induction false} BracketSteps(g: string, invert: bool, first: bool, body: string)
    requires body != [] && g == (if invert then ['^'] else []) + ((if first then [']'] else []) + body)
    requires !first ==> body[0] != ']' && (!invert ==> body[0] != '^')
    ensures var r := SetItems(body, 0);
      Bracket(g) == (if r.closed then OneOf(invert, (if first then [Single(']' as int)] else []) + r.items) else Never, r.rest)
  {
    hide SetItems;
    var g1 := (if first then [']'] else []) + body;
    assert invert ==> g[1..] == g1;
    assert !invert ==> g == g1;
    assert first ==> g1[1..] == body;
    assert !first ==> g1 == body;
  }

  lemma {:induction false} FirstByte(ps: seq<Part>)
    requires Plains(ps) && ps != []
    ensures PartsText(ps) != [] && PartsText(ps)[0] == ps[0].Text()[0] != ']'
  {
    assert ps[0].Plain();
  }

  /** A range by itself, as it stands and inverted. */
  lemma RangeMatches(lo: char, hi: char, c: char)
    requires 0 < lo as int < 128 && hi as int < 256 && c as int < 256 && lo != ']' && hi != ']'
    ensures lo != '^' ==>
      (Matches(Tokens(['[', lo, '-', hi, ']'], false, true), [c]) <==> c == lo || (lo <= c <= hi && hi as int < 128))
    ensures Matches(Tokens(['[', '^', lo, '-', hi, ']'], false, true), [c]) <==> !(c == lo || (lo <= c <= hi && hi as int < 128))
  {
    var ps := [Between(lo, hi)];
    assert ps[1..] == [] && PartsText(ps) == [lo, '-', hi];
    HoldsFirst(ps, c);
    assert AllSpace([c][1..]);
    hide PartsText, Holds, AllSpace, Tokens, Matches;
    ListText(ps, [lo, '-', hi]);
    assert "[" + [lo, '-', hi] + "]" == ['[', lo, '-', hi, ']'];
    assert "[^" + [lo, '-', hi] + "]" == ['[', '^', lo, '-', hi, ']'];
    hide BracketText;
    if lo != '^' {
      BracketMatches(ps, false, false, [c]);
    }
    BracketMatches(ps, true, false, [c]);
  }

  /** A list of bytes, in which a hyphen can only come first. */
  lemma ListMatches(bytes: string, c: char)
    requires bytes != [] && bytes[0] != '^' && '-' !in bytes[1..] && ']' !in bytes
    requires c as int < 256 && forall k | 0 <= k < |bytes| :: bytes[k] as int < 256
    ensures Matches(Tokens("[" + bytes + "]", false, true), [c]) <==> c in bytes
    ensures Matches(Tokens("[^" + bytes + "]", false, true), [c]) <==> c !in bytes
  {
    hide Matches, Tokens;
    ListOf(seq(|bytes|, k requires 0 <= k < |bytes| => One(bytes[k])), bytes, c);
  }

  lemma ListOf(ps: seq<Part>, bytes: string, c: char)
    requires |ps| == |bytes| && forall k | 0 <= k < |ps| :: ps[k] == One(bytes[k])
    requires bytes != [] && bytes[0] != '^' && '-' !in bytes[1..] && ']' !in bytes
    requires c as int < 256 && forall k | 0 <= k < |bytes| :: bytes[k] as int < 256
    ensures Matches(Tokens("[" + bytes + "]", false, true), [c]) <==> c in bytes
    ensures Matches(Tokens("[^" + bytes + "]", false, true), [c]) <==> c !in bytes
  {
    var z := [c];
    assert AllSpace(z[1..]) && ps[0].Text()[0] == bytes[0];
    hide *;
    OnesText(ps, bytes);
    OnesHold(ps, bytes, c);
    OnesPlain(ps, bytes);
    ListText(ps, bytes);
    BracketMatches(ps, false, false, z);
    BracketMatches(ps, true, false, z);
  }

  lemma OnesPlain(ps: seq<Part>, bytes: string)
    requires |ps| == |bytes| && forall k | 0 <= k < |ps| :: ps[k] == One(bytes[k])
    requires bytes != [] && '-' !in bytes[1..] && forall k | 0 <= k < |bytes| :: bytes[k] != ']' && bytes[k] as int < 256
    ensures Plains(ps)
  {
    forall k | 1 <= k < |ps| ensures !ps[k].Hyphen() {
      assert bytes[1..][k - 1] == bytes[k];
    }
  }

  lemma OnesHold(ps: seq<Part>, bytes: string, c: char)
    requires |ps| == |bytes| && forall k | 0 <= k < |ps| :: ps[k] == One(bytes[k])
    ensures Holds(ps, c) <==> c in bytes
  {
    if k :| 0 <= k < |bytes| && bytes[k] == c {
      assert ps[k].Holds(c);
    }
  }

  lemma ListText(ps: seq<Part>, bytes: string)
    requires PartsText(ps) == bytes
    ensures BracketText(ps, false, false) == "[" + bytes + "]" && BracketText(ps, true, false) == "[^" + bytes + "]"
  {
    hide PartsText;
    assert "[" + "^" == "[^";
  }

  lemma {:induction false} OnesText(ps: seq<Part>, bytes: string)
    requires |ps| == |bytes| && forall k | 0 <= k < |ps| :: ps[k] == One(bytes[k])
    ensures PartsText(ps) == bytes
  {
    if ps != [] {
      OnesText(ps[1..], bytes[1..]);
    }
  }
}
