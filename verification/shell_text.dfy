/** ShellText and the quoting of identifiers. */
module ShellText {
  import opened Seqs
  import opened Wrappers
  import opened Chars

  const NUL := '\0'

  // ---- Quoted pieces ----

  function Doubled(s: string, quote: char): (r: string) {
    if s == [] then [] else Twin(s[0], quote) + Doubled(s[1..], quote)
  }

  function Twin(c: char, quote: char): (r: string) { if c == quote then [c, c] else [c] }

  /** What appending `s` adds. A quote of NUL stands for none. */
  function Piece(s: string, quote: char): (r: string) {
    if quote == NUL then s else [quote] + Doubled(s, quote) + [quote]
  }

  /** Reads a quoted token behind its opening quote: two quotes stand for one, one ends it. */
  function Unquote(t: string, quote: char): (r: Option<(string, string)>)
    decreases |t|
  {
    if t == [] then None
    else if t[0] != quote then
      var more := Unquote(t[1..], quote);
      if more.None? then None else Some(([t[0]] + more.value.0, more.value.1))
    else if |t| > 1 && t[1] == quote then
      var more := Unquote(t[2..], quote);
      if more.None? then None else Some(([quote] + more.value.0, more.value.1))
    else Some(([], t[1..]))
  }

  lemma {:induction false} UnquoteDoubled(s: string, quote: char, rest: string)
    requires rest == [] || rest[0] != quote
    ensures Unquote(Doubled(s, quote) + ([quote] + rest), quote) == Some((s, rest))
    decreases |s|
  {
    var t := Doubled(s, quote) + ([quote] + rest);
    assert s != [] ==> s == [s[0]] + s[1..];
    if s == [] {
      assert t == [quote] + rest && t[1..] == rest;
    } else {
      var more := Doubled(s[1..], quote) + ([quote] + rest);
      UnquoteDoubled(s[1..], quote, rest);
      if s[0] == quote {
        assert t == [quote, quote] + more && t[2..] == more;
      } else {
        assert t == [s[0]] + more && t[1..] == more;
      }
    }
  }

  lemma {:induction false} DoubledMore(s: string, i: nat, quote: char)
    requires i < |s|
    ensures Doubled(s[..i + 1], quote) == Doubled(s[..i], quote) + Twin(s[i], quote)
    ensures |Doubled(s[..i + 1], quote)| <= |Doubled(s, quote)|
    decreases i
  {
    var t := s[..i + 1];
    if i > 0 {
      DoubledMore(s[1..], i - 1, quote);
      assert s[1..][..i] == t[1..] && s[1..][..i - 1] == s[..i][1..];
    }
  }

  /** How many bytes of a piece need a second one. */
  method CountQuotes(s: string, quote: char) returns (count: nat)
    ensures |s| + count == |Doubled(s, quote)|
  {
    count := 0;
    var i := 0;
    while i < |s|
      invariant 0 <= i <= |s| && i + count == |Doubled(s[..i], quote)|
    {
      DoubledMore(s, i, quote);
      if s[i] == quote {
        count := count + 1;
      }
      i := i + 1;
    }
    assert s[..i] == s;
  }

  method PutByte(z: array<char>, csr0: nat, c: char, quote: char) returns (csr: nat)
    requires csr0 + |Twin(c, quote)| <= z.Length
    modifies z
    ensures csr == csr0 + |Twin(c, quote)| && z[..csr] == old(z[..csr0]) + Twin(c, quote)
  {
    csr := csr0;
    z[csr] := c;
    csr := csr + 1;
    if c == quote {
      z[csr] := quote;
      csr := csr + 1;
    }
  }

  /** Copies a piece and doubles its quotes; the new end. */
  method CopyQuoted(z: array<char>, n: nat, s: string, quote: char) returns (csr: nat)
    requires quote != NUL && n + |Piece(s, quote)| <= z.Length
    modifies z
    ensures csr == n + |Piece(s, quote)| && z[..csr] == old(z[..n]) + Piece(s, quote)
  {
    hide Doubled, Twin;
    ghost var text := z[..n];
    csr := n;
    z[csr] := quote;
    csr := csr + 1;
    csr := CopyDoubled(z, csr, s, quote);
    z[csr] := quote;
    csr := csr + 1;
    Assoc(text, [quote], Doubled(s, quote));
    Assoc(text, [quote] + Doubled(s, quote), [quote]);
  }

  method CopyDoubled(z: array<char>, n: nat, s: string, quote: char) returns (csr: nat)
    requires n + |Doubled(s, quote)| <= z.Length
    modifies z
    ensures csr == n + |Doubled(s, quote)| && z[..csr] == old(z[..n]) + Doubled(s, quote)
  {
    hide Doubled, Twin;
    ghost var text := z[..n];
    csr := n;
    var i := 0;
    NothingDoubled(quote);
    Empty(text);
    while i < |s|
      invariant 0 <= i <= |s| && csr == n + |Doubled(s[..i], quote)| && |Doubled(s[..i], quote)| <= |Doubled(s, quote)|
      invariant z[..csr] == text + Doubled(s[..i], quote)
    {
      DoubledMore(s, i, quote);
      Assoc(text, Doubled(s[..i], quote), Twin(s[i], quote));
      csr := PutByte(z, csr, s[i], quote);
      i := i + 1;
    }
    assert s[..i] == s;
  }

  lemma {:induction false} NothingDoubled(quote: char)
    ensures Doubled([], quote) == []
  {}

  /** memcpy(). */
  method CopyPlain(z: array<char>, n: nat, s: string)
    requires n + |s| <= z.Length
    modifies z
    ensures z[..n + |s|] == old(z[..n]) + s
  {
    ghost var text := z[..n];
    var i := 0;
    while i < |s|
      invariant 0 <= i <= |s| && z[..n + i] == text + s[..i]
    {
      z[n + i] := s[i];
      i := i + 1;
    }
  }

  // ---- The growing buffer ----

  class ShellText {
    var z: array<char>
    var n: nat
    var nAlloc: nat

    ghost predicate Valid()
      reads this, z
    {
      z.Length == nAlloc && if nAlloc == 0 then n == 0 else n < nAlloc && z[n] == NUL
    }

    ghost function Text(): (r: string)
      reads this, z
      requires Valid()
    {
      z[..n]
    }

    constructor ()
      ensures Valid() && Text() == [] && fresh(z)
    {
      z := new char[0];
      n, nAlloc := 0, 0;
    }

    /** realloc() to `nAlloc` bytes, where there is need. */
    method Reserve(len: nat)
      requires Valid() && len >= n
      modifies this`z, this`nAlloc
      ensures n + len < nAlloc && z.Length == nAlloc && n <= nAlloc && z[..n] == old(z[..n])
      ensures z == old(z) || fresh(z)
    {
      if n + len >= nAlloc {
        nAlloc := nAlloc * 2 + len + 20;
        var was := z;
        z := new char[nAlloc];
        var i := 0;
        while i < n
          invariant i <= n && z.Length == nAlloc == old(nAlloc) * 2 + len + 20 && fresh(z)
          invariant was[..] == old(z[..]) && z[..i] == was[..i]
        {
          z[i] := was[i];
          i := i + 1;
        }
      }
    }

    /** Appends a piece. */
    method Append(zAppend: string, quote: char)
      requires Valid()
      modifies this, z
      ensures Valid() && nAlloc > 0 && Text() == old(Text()) + Piece(zAppend, quote)
      ensures z == old(z) || fresh(z)
    {
      hide Doubled;
      var len := |zAppend| + n + 1;
      if quote != NUL {
        var count := CountQuotes(zAppend, quote);
        len := len + 2 + count;
      }
      Reserve(len);
      if quote != NUL {
        n := CopyQuoted(z, n, zAppend, quote);
      } else {
        CopyPlain(z, n, zAppend);
        n := n + |zAppend|;
      }
      z[n] := NUL;
    }
  }

  // ---- Whole texts ----

  function AllPieces(pieces: seq<(string, char)>): (r: string) {
    if pieces == [] then [] else AllPieces(pieces[..|pieces| - 1]) + Piece(pieces[|pieces| - 1].0, pieces[|pieces| - 1].1)
  }

  /** Any number of pieces appended to an empty text. */
  method AppendAll(pieces: seq<(string, char)>) returns (p: ShellText)
    ensures p.Valid() && p.Text() == AllPieces(pieces)
  {
    hide Piece;
    p := new ShellText();
    for i := 0 to |pieces|
      invariant p.Valid() && p.Text() == AllPieces(pieces[..i]) && fresh(p) && fresh(p.z)
    {
      assert pieces[..i + 1][..i] == pieces[..i];
      p.Append(pieces[i].0, pieces[i].1);
    }
    assert pieces[..|pieces|] == pieces;
  }

  // ---- Identifiers ----

  function Lower(c: char): (r: char) { if 'A' <= c <= 'Z' then c - 'A' + 'a' else c }

  /** The sign of sqlite3_stricmp(). */
  function ICmp(a: string, b: string): (r: int) {
    if a == [] || b == [] then (if a != [] then 1 else if b != [] then -1 else 0)
    else if Lower(a[0]) < Lower(b[0]) then -1
    else if Lower(a[0]) > Lower(b[0]) then 1
    else ICmp(a[1..], b[1..])
  }

  predicate SameWord(a: string, b: string) {
    |a| == |b| && forall i | 0 <= i < |a| :: Lower(a[i]) == Lower(b[i])
  }

  lemma WordsInCodes(a: string, b: string)
    ensures SameWord(a, b) <==> |a| == |b| && forall i | 0 <= i < |a| :: Alike(a[i], b[i])
  {
    forall i | 0 <= i < |a| && i < |b| ensures Lower(a[i]) == Lower(b[i]) <==> Alike(a[i], b[i]) {}
  }

  /** A sorted table of words, as the binary search needs it. */
  ghost predicate Sorted(az: seq<string>) { forall i, j | 0 <= i < j < |az| :: ICmp(az[i], az[j]) == -1 }

  predicate Reserved(az: seq<string>, name: string) { exists i | 0 <= i < |az| :: SameWord(az[i], name) }

  lemma {:induction false} ICmpSigns(a: string, b: string)
    ensures ICmp(b, a) == -ICmp(a, b) && -1 <= ICmp(a, b) <= 1
    ensures ICmp(a, b) == 0 <==> SameWord(a, b)
  {
    if a != [] && b != [] {
      ICmpSigns(a[1..], b[1..]);
      if SameWord(a, b) {
        assert forall i | 0 <= i < |a[1..]| :: a[1..][i] == a[i + 1] && b[1..][i] == b[i + 1];
      }
      if Lower(a[0]) == Lower(b[0]) && SameWord(a[1..], b[1..]) {
        forall i | 0 <= i < |a| ensures Lower(a[i]) == Lower(b[i]) {
          assert i > 0 ==> a[i] == a[1..][i - 1] && b[i] == b[1..][i - 1];
        }
      }
    }
  }

  lemma {:induction false} ICmpOrder(a: string, b: string, c: string)
    requires ICmp(a, b) == -1 && ICmp(b, c) == -1
    ensures ICmp(a, c) == -1
  {
    if a != [] && b != [] && c != [] && Lower(a[0]) == Lower(b[0]) == Lower(c[0]) {
      ICmpOrder(a[1..], b[1..], c[1..]);
    }
  }

  /** Letters, digits and underscores, the first of them no digit. */
  predicate IsWord(name: string) {
    name != [] && !IsDigit(name[0]) && forall i | 0 <= i < |name| :: IsWordByte(name[i])
  }

  lemma WordInCodes(name: string)
    ensures IsWord(name) <==>
      name != [] && !(48 <= name[0] as int <= 57) && forall i | 0 <= i < |name| :: WordCode(name[i] as int)
  {
    forall i | 0 <= i < |name| {
      ClassesInCodes(name[i]);
    }
    hide IsWordByte, IsDigit, WordCode;
  }

  /** A name that can stand without quotes: a word that is not in the table. */
  predicate StandsAlone(az: seq<string>, name: string) { IsWord(name) && !Reserved(az, name) }

  /** The quote a name needs, or NUL. */
  method QuoteChar(az: seq<string>, zName: string) returns (quote: char)
    requires Sorted(az)
    ensures quote == if StandsAlone(az, zName) then NUL else '"'
  {
    hide ICmp, SameWord;
    if zName == [] || (!IsAlpha(zName[0]) && zName[0] != '_') {
      return '"';
    }
    for i := 0 to |zName|
      invariant forall k | 0 <= k < i :: IsWordByte(zName[k])
    {
      if !IsWordByte(zName[i]) {
        return '"';
      }
    }
    var lwr, upr := 0, |az| - 1;
    while lwr <= upr
      invariant 0 <= lwr <= upr + 1 <= |az|
      invariant forall i | 0 <= i < lwr :: ICmp(az[i], zName) == -1
      invariant forall i | upr < i < |az| :: ICmp(az[i], zName) == 1
    {
      var mid := (lwr + upr) / 2;
      var c := ICmp(az[mid], zName);
      ICmpSigns(az[mid], zName);
      if c == 0 {
        return '"';
      }
      SearchStep(az, zName, mid);
      if c < 0 {
        lwr := mid + 1;
      } else {
        upr := mid - 1;
      }
    }
    forall i | 0 <= i < |az| ensures !SameWord(az[i], zName) {
      ICmpSigns(az[i], zName);
    }
    quote := NUL;
  }

  lemma {:induction false} SearchStep(az: seq<string>, name: string, mid: nat)
    requires Sorted(az) && mid < |az|
    ensures ICmp(az[mid], name) == -1 ==> forall i | 0 <= i <= mid :: ICmp(az[i], name) == -1
    ensures ICmp(az[mid], name) == 1 ==> forall i | mid <= i < |az| :: ICmp(az[i], name) == 1
  {
    hide ICmp;
    forall i | 0 <= i < |az|
      ensures ICmp(az[mid], name) == -1 && i <= mid ==> ICmp(az[i], name) == -1
      ensures ICmp(az[mid], name) == 1 && mid <= i ==> ICmp(az[i], name) == 1
    {
      ICmpSigns(az[mid], name);
      ICmpSigns(az[i], name);
      if i < mid && ICmp(az[mid], name) == -1 {
        ICmpOrder(az[i], az[mid], name);
      } else if mid < i && ICmp(az[mid], name) == 1 {
        ICmpOrder(name, az[mid], az[i]);
      }
    }
  }

  function WordRun(t: string): (k: nat)
    ensures k <= |t| && (forall i | 0 <= i < k :: IsWordByte(t[i])) && (k < |t| ==> !IsWordByte(t[k]))
  {
    if t == [] || !IsWordByte(t[0]) then 0 else 1 + WordRun(t[1..])
  }

  /** How a parser reads a name: a quoted token, or a whole word. Which words it takes for names is
      its own affair: `isName` knows nothing of the table. */
  function ReadName(isName: string -> bool, t: string): (r: Option<(string, string)>) {
    if t != [] && t[0] == '"' then Unquote(t[1..], '"')
    else
      var word := t[..WordRun(t)];
      if IsWord(word) && isName(word) then Some((word, t[WordRun(t)..])) else None
  }

  /** What can come behind a name. */
  predicate GoesOn(rest: string) { rest == [] || (!IsWordByte(rest[0]) && rest[0] != '"') }

  /** The name as the shell writes it: quoted where QuoteChar() says so. */
  function Written(az: seq<string>, name: string): (s: string) {
    Piece(name, if StandsAlone(az, name) then NUL else '"')
  }

  /** The parser reads every written name as that name. */
  ghost predicate ReadsNames(az: seq<string>, isName: string -> bool) {
    forall name: string, rest: string | GoesOn(rest) ::
      ReadName(isName, Written(az, name) + rest) == Some((name, rest))
  }

  lemma NameRead(az: seq<string>, isName: string -> bool, name: string, rest: string)
    requires GoesOn(rest)
    ensures ReadName(isName, Written(az, name) + rest) == Some((name, rest)) <==> (StandsAlone(az, name) ==> isName(name))
  {
    hide Doubled, Unquote, Reserved;
    if StandsAlone(az, name) {
      RunStops(name, rest);
    } else {
      QuotedName(isName, name, rest);
    }
  }

  /** Every name is read back by a parser exactly if the table holds all the words that the parser
      does not take for names. The table may well hold more. */
  lemma TableMustCover(az: seq<string>, isName: string -> bool)
    ensures ReadsNames(az, isName) <==> forall w: string | IsWord(w) && !isName(w) :: Reserved(az, w)
  {
    hide ReadName, Written, Reserved;
    if ReadsNames(az, isName) {
      forall w: string | IsWord(w) && !isName(w) ensures Reserved(az, w) {
        NameRead(az, isName, w, []);
      }
    }
    if forall w: string | IsWord(w) && !isName(w) :: Reserved(az, w) {
      forall name: string, rest: string | GoesOn(rest)
        ensures ReadName(isName, Written(az, name) + rest) == Some((name, rest))
      {
        NameRead(az, isName, name, rest);
      }
    }
  }

  lemma {:induction false} RunStops(name: string, rest: string)
    requires (forall i | 0 <= i < |name| :: IsWordByte(name[i])) && (rest == [] || !IsWordByte(rest[0]))
    ensures WordRun(name + rest) == |name| && (name + rest)[..|name|] == name && (name + rest)[|name|..] == rest
  {
    var t := name + rest;
    assert (forall i | 0 <= i < |name| :: t[i] == name[i]) && (rest != [] ==> t[|name|] == rest[0]);
  }

  lemma QuotedName(isName: string -> bool, name: string, rest: string)
    requires rest == [] || rest[0] != '"'
    ensures ReadName(isName, Piece(name, '"') + rest) == Some((name, rest))
  {
    hide Doubled, Unquote;
    var q := Piece(name, '"') + rest;
    assert q[1..] == Doubled(name, '"') + (['"'] + rest);
    UnquoteDoubled(name, '"', rest);
  }
}
