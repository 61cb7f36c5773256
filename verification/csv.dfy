/** CSV output and the reader and row loop of .import. */
module Csv {
  import opened Seqs
  import opened Wrappers

  type Byte = b: int | 0 <= b < 256

  const EOF := -1
  const QUOTE: Byte := 34
  const CR: Byte := 13
  const LF: Byte := 10

  // ---- The writer ----

  /** The table needCsvQuote[]. */
  predicate NeedCsvQuote(b: Byte) { b <= 32 || b == 34 || b == 39 || b >= 127 }

  /** The test of output_csv(): for a separator of several bytes it looks at the start of the
      field, wherever the first separator byte was found. */
  predicate ForcesQuotes(z: seq<Byte>, i: nat, colSep: seq<Byte>)
    requires i < |z|
  {
    NeedCsvQuote(z[i]) || (colSep != [] && z[i] == colSep[0] && (|colSep| == 1 || colSep <= z))
  }

  predicate Quoted(z: seq<Byte>, colSep: seq<Byte>) {
    z == [] || exists i | 0 <= i < |z| :: ForcesQuotes(z, i, colSep)
  }

  function Doubled(z: seq<Byte>): (r: seq<Byte>) {
    if z == [] then []
    else if z[0] == QUOTE then [QUOTE, QUOTE] + Doubled(z[1..])
    else [z[0]] + Doubled(z[1..])
  }

  function FieldText(z: seq<Byte>, colSep: seq<Byte>): (r: seq<Byte>) {
    if Quoted(z, colSep) then [QUOTE] + Doubled(z) + [QUOTE] else z
  }

  /** A field is written as it stands exactly if it is not empty, all its bytes are printable and neither
      blanks nor quotes, and the separator is not in it; one of several bytes counts only at its start. */
  lemma WrittenBare(z: seq<Byte>, colSep: seq<Byte>)
    ensures FieldText(z, colSep) == z <==>
      && z != [] && (forall i | 0 <= i < |z| :: 33 <= z[i] <= 126 && z[i] != 34 && z[i] != 39)
      && (|colSep| == 1 ==> colSep[0] !in z) && (|colSep| > 1 ==> !(colSep <= z))
  {
    DoubledLength(z);
    assert Quoted(z, colSep) ==> |FieldText(z, colSep)| > |z|;
    if Quoted(z, colSep) && z != [] {
      var i :| 0 <= i < |z| && ForcesQuotes(z, i, colSep);
    }
    if z != [] && |colSep| > 1 && colSep <= z {
      assert ForcesQuotes(z, 0, colSep);
    }
    forall i | 0 <= i < |z| ensures ForcesQuotes(z, i, colSep) <==>
      || !(33 <= z[i] <= 126 && z[i] != 34 && z[i] != 39)
      || (colSep != [] && z[i] == colSep[0] && (|colSep| == 1 || colSep <= z)) {}
  }

  lemma {:induction false} DoubledLength(z: seq<Byte>)
    ensures |Doubled(z)| >= |z|
  {
    if z != [] {
      DoubledLength(z[1..]);
    }
  }

  lemma {:induction false} DoubledSnoc(z: seq<Byte>, b: Byte)
    ensures Doubled(z + [b]) == Doubled(z) + (if b == QUOTE then [QUOTE, QUOTE] else [b])
  {
    if z == [] {
      assert Doubled([b]) == (if b == QUOTE then [QUOTE, QUOTE] else [b]) + Doubled([b][1..]);
    } else {
      DoubledSnoc(z[1..], b);
      assert (z + [b])[1..] == z[1..] + [b];
    }
  }

  method WriteQuoted(f: seq<Byte>) returns (text: seq<Byte>)
    ensures text == [QUOTE] + Doubled(f) + [QUOTE]
  {
    hide Doubled;
    text := [QUOTE];
    NothingDoubled();
    var i := 0;
    while i < |f|
      invariant 0 <= i <= |f|
      invariant text == [QUOTE] + Doubled(f[..i])
    {
      DoubledSnoc(f[..i], f[i]);
      assert f[..i] + [f[i]] == f[..i + 1];
      if f[i] == QUOTE {
        text := text + [QUOTE];
      }
      text := text + [f[i]];
      i := i + 1;
    }
    assert f[..i] == f;
    text := text + [QUOTE];
  }

  lemma NothingDoubled()
    ensures Doubled([]) == []
  {}

  /** output_csv(): appends one term to `out`. */
  method OutputCsv(out: seq<Byte>, z: Option<seq<Byte>>, nullValue: seq<Byte>, colSep: seq<Byte>, bSep: bool)
      returns (out': seq<Byte>)
    ensures out' == out + (match z case None => nullValue case Some(f) => FieldText(f, colSep)) + (if bSep then colSep else [])
  {
    out' := out;
    match z {
      case None =>
        out' := out' + nullValue;
      case Some(f) =>
        var i := 0;
        while i < |f|
          invariant 0 <= i <= |f|
          invariant forall k | 0 <= k < i :: !ForcesQuotes(f, k, colSep)
        {
          if ForcesQuotes(f, i, colSep) {
            i := 0;
            break;
          }
          i := i + 1;
        }
        if i == 0 {
          var text := WriteQuoted(f);
          out' := out' + text;
        } else {
          out' := out' + f;
        }
    }
    if bSep {
      out' := out' + colSep;
    }
  }

  // ---- The reader, as a function of the unread bytes ----

  /** What one call returns: the field (None for a null pointer), the terminator, the unread rest,
      the increase of the line number, and whether a byte has been read. */
  datatype Read = Read(field: Option<seq<Byte>>, term: int, rest: seq<Byte>, lines: nat, notFirst: bool)

  /** fgetc(). */
  function Next(s: seq<Byte>): (r: int) { if s == [] then EOF else s[0] }

  function After(s: seq<Byte>): (r: seq<Byte>) { if s == [] then s else s[1..] }

  function LineEnd(c: int, row: int): (r: nat) { if c == row then 1 else 0 }

  /** The back-up loop: removes bytes up to and including the last quote. */
  function BackUp(z: seq<Byte>): (r: seq<Byte>) {
    if z == [] then [] else if z[|z| - 1] == QUOTE then z[..|z| - 1] else BackUp(z[..|z| - 1])
  }

  predicate Closes(c: int, pc: int, ppc: int, sep: int, row: int) {
    || (c == sep && pc == QUOTE)
    || (c == row && pc == QUOTE)
    || (c == row && pc == CR && ppc == QUOTE)
    || (c == EOF && pc == QUOTE)
  }

  /** The loop over a quoted field: `z` is accumulated, `pc` and `ppc` are the previous bytes. */
  function QuotedFrom(s: seq<Byte>, z: seq<Byte>, pc: int, ppc: int, lines: nat, sep: int, row: int): (r: Read)
    ensures r.field.Some? && r.notFirst
    ensures |r.rest| <= |s| && (r.term != EOF ==> |r.rest| < |s|)
    decreases |s|
  {
    var c, t, n := Next(s), After(s), lines + LineEnd(Next(s), row);
    if c == QUOTE && pc == QUOTE then QuotedFrom(t, z, 0, ppc, n, sep, row)
    else if Closes(c, pc, ppc, sep, row) then Read(Some(BackUp(z)), c, t, n, true)
    else if c == EOF then Read(Some(z), c, t, n, true)
    else QuotedFrom(t, z + [c], c, pc, n, sep, row)
  }

  lemma QuotedStep(s: seq<Byte>, z: seq<Byte>, pc: int, ppc: int, lines: nat, sep: int, row: int)
    ensures var c, t, n, r := Next(s), After(s), lines + LineEnd(Next(s), row), QuotedFrom(s, z, pc, ppc, lines, sep, row);
      && (c == QUOTE && pc == QUOTE ==> s != [] && r == QuotedFrom(t, z, 0, ppc, n, sep, row))
      && (!(c == QUOTE && pc == QUOTE) && Closes(c, pc, ppc, sep, row) ==> r == Read(Some(BackUp(z)), c, t, n, true))
      && (!Closes(c, pc, ppc, sep, row) && c == EOF ==> r == Read(Some(z), c, t, n, true))
      && (!(c == QUOTE && pc == QUOTE) && !Closes(c, pc, ppc, sep, row) && c != EOF ==>
          s != [] && r == QuotedFrom(t, z + [c], c, pc, n, sep, row))
  {
    hide Closes, BackUp;
  }

  function Trimmed(z: seq<Byte>): (r: seq<Byte>) {
    if z != [] && z[|z| - 1] == CR then z[..|z| - 1] else z
  }

  function PlainFrom(s: seq<Byte>, z: seq<Byte>, sep: int, row: int): (r: Read)
    ensures r.field.Some? && r.notFirst
    ensures |r.rest| <= |s| && (r.term != EOF ==> |r.rest| < |s|)
    decreases |s|
  {
    var c := Next(s);
    if c == EOF || c == sep || c == row then
      Read(Some(if c == row then Trimmed(z) else z), c, After(s), LineEnd(c, row), true)
    else PlainFrom(After(s), z + [c], sep, row)
  }

  lemma {:induction false} PlainStep(s: seq<Byte>, z: seq<Byte>, sep: int, row: int)
    ensures var c, r := Next(s), PlainFrom(s, z, sep, row);
      if c == EOF || c == sep || c == row then
        r == Read(Some(if c == row then Trimmed(z) else z), c, After(s), LineEnd(c, row), true)
      else r == PlainFrom(After(s), z + [c], sep, row)
  {}

  predicate StartsWithBom(s: seq<Byte>) { |s| >= 3 && s[0] == 0xEF && s[1] == 0xBB && s[2] == 0xBF }

  /** csv_read_one_field(). */
  function ReadField(s: seq<Byte>, notFirst: bool, sep: int, row: int): (r: Read)
    ensures |r.rest| <= |s| && (r.term != EOF ==> |r.rest| < |s|)
    ensures r.field.None? ==> r.term == EOF
  {
    if s == [] then Read(None, EOF, s, 0, notFirst)
    else if s[0] == QUOTE then QuotedFrom(s[1..], [], 0, 0, 0, sep, row)
    else if StartsWithBom(s) && !notFirst then
      if |s| == 3 then Read(None, EOF, [], 0, true)
      else if s[3] == QUOTE then QuotedFrom(s[4..], [], 0, 0, 0, sep, row)
      else PlainFrom(s[3..], [], sep, row)
    else PlainFrom(s, [], sep, row)
  }

  lemma ReadNothing(notFirst: bool, sep: int, row: int)
    ensures ReadField([], notFirst, sep, row) == Read(None, EOF, [], 0, notFirst)
  {}

  /** A byte order mark before anything else is read is skipped. */
  lemma {:induction false} ReadFieldCases(s: seq<Byte>, notFirst: bool, sep: int, row: int)
    requires s != []
    ensures s[0] == QUOTE ==> ReadField(s, notFirst, sep, row) == QuotedFrom(s[1..], [], 0, 0, 0, sep, row)
    ensures StartsWithBom(s) && !notFirst ==> ReadField(s, notFirst, sep, row) == ReadField(s[3..], true, sep, row)
    ensures s[0] != QUOTE && !(StartsWithBom(s) && !notFirst) ==> ReadField(s, notFirst, sep, row) == PlainFrom(s, [], sep, row)
  {
    if |s| > 3 {
      assert s[3..][1..] == s[4..];
    }
  }

  // ---- What a call consumes, for every byte stream ----

  function Count(c: int, s: seq<Byte>): (r: nat) {
    if s == [] then 0 else (if s[0] == c then 1 else 0) + Count(c, s[1..])
  }

  /** The call took a front part of `s`: the terminator is its last byte, or everything was taken. */
  predicate TakesFront(s: seq<Byte>, r: Read) {
    && |r.rest| <= |s| && s[|s| - |r.rest|..] == r.rest
    && (r.term == EOF ==> r.rest == [])
    && (r.term != EOF ==> |r.rest| < |s| && s[|s| - |r.rest| - 1] == r.term)
  }

  function Front(s: seq<Byte>, r: Read): (res: seq<Byte>)
    requires |r.rest| <= |s|
  {
    s[..|s| - |r.rest|]
  }

  lemma {:induction false} TakesMore(s: seq<Byte>, r: Read, row: int)
    requires s != [] && TakesFront(s[1..], r)
    ensures TakesFront(s, r) && Count(row, Front(s, r)) == LineEnd(s[0], row) + Count(row, Front(s[1..], r))
  {
    assert Front(s, r)[1..] == Front(s[1..], r);
  }

  lemma {:induction false} TakesOne(s: seq<Byte>, r: Read, row: int)
    requires r.rest == After(s) && r.term == Next(s)
    ensures TakesFront(s, r) && (row != EOF ==> Count(row, Front(s, r)) == LineEnd(Next(s), row))
  {
    if s == [] {
      assert Front(s, r) == [];
    } else {
      assert |s| - |r.rest| == 1;
      assert Front(s, r) == [s[0]];
      assert [s[0]][1..] == [];
    }
  }

  lemma {:induction false} QuotedTakes(s: seq<Byte>, z: seq<Byte>, pc: int, ppc: int, lines: nat, sep: int, row: int)
    ensures var r := QuotedFrom(s, z, pc, ppc, lines, sep, row);
      TakesFront(s, r) && (row != EOF ==> r.lines == lines + Count(row, Front(s, r)))
    decreases |s|
  {
    hide Closes, TakesFront, Front, Count;
    var c, n := Next(s), lines + LineEnd(Next(s), row);
    var r := QuotedFrom(s, z, pc, ppc, lines, sep, row);
    if s != [] && c == QUOTE && pc == QUOTE {
      QuotedTakes(s[1..], z, 0, ppc, n, sep, row);
      TakesMore(s, r, row);
    } else if Closes(c, pc, ppc, sep, row) || c == EOF {
      TakesOne(s, r, row);
    } else {
      QuotedTakes(s[1..], z + [c], c, pc, n, sep, row);
      TakesMore(s, r, row);
    }
  }

  lemma {:induction false} PlainTakes(s: seq<Byte>, z: seq<Byte>, sep: int, row: int)
    ensures var r := PlainFrom(s, z, sep, row);
      TakesFront(s, r) && (row != EOF ==> r.lines == Count(row, Front(s, r)))
    decreases |s|
  {
    hide TakesFront, Front, Count;
    var c := Next(s);
    var r := PlainFrom(s, z, sep, row);
    if c == EOF || c == sep || c == row {
      TakesOne(s, r, row);
    } else {
      PlainTakes(s[1..], z + [c], sep, row);
      TakesMore(s, r, row);
    }
  }

  /** What is said of every call. */
  predicate Takes(s: seq<Byte>, r: Read, row: int) {
    TakesFront(s, r) && (s != [] ==> |r.rest| < |s|) && (row != EOF && row != QUOTE ==> r.lines == Count(row, Front(s, r)))
  }

  /** Every call takes a front part of the stream, at least one byte of it unless none is left, and
      ends with its terminator; the line number grows by the row separators taken. */
  lemma {:induction false} ReadFieldTakes(s: seq<Byte>, notFirst: bool, sep: int, row: int)
    requires row < 128
    ensures Takes(s, ReadField(s, notFirst, sep, row), row)
    decreases |s|
  {
    var r := ReadField(s, notFirst, sep, row);
    if s == [] {
      assert Front(s, r) == [] && s[0..] == s;
    } else {
      ReadFieldCases(s, notFirst, sep, row);
      if s[0] == QUOTE {
        hide *;
        QuotedTakesAll(s, r, sep, row);
      } else if StartsWithBom(s) && !notFirst {
        BomCount(row, s);
        hide *;
        ReadFieldTakes(s[3..], true, sep, row);
        TakesBehind(s, 3, r, row);
      } else {
        hide *;
        PlainTakesAll(s, r, sep, row);
      }
    }
  }

  lemma {:induction false} QuotedTakesAll(s: seq<Byte>, r: Read, sep: int, row: int)
    requires s != [] && s[0] == QUOTE && r == QuotedFrom(s[1..], [], 0, 0, 0, sep, row)
    ensures Takes(s, r, row)
  {
    hide QuotedFrom, TakesFront, Count, Front;
    QuotedTakes(s[1..], [], 0, 0, 0, sep, row);
    TakesMore(s, r, row);
    TakesSome(s, r);
  }

  lemma {:induction false} PlainTakesAll(s: seq<Byte>, r: Read, sep: int, row: int)
    requires s != [] && r == PlainFrom(s, [], sep, row)
    ensures Takes(s, r, row)
  {
    hide PlainFrom, TakesFront, Count, Front;
    PlainTakes(s, [], sep, row);
    TakesSome(s, r);
  }

  lemma TakesSome(s: seq<Byte>, r: Read)
    requires s != [] && TakesFront(s, r)
    ensures |r.rest| < |s|
  {}

  lemma {:induction false} TakesBehind(s: seq<Byte>, n: nat, r: Read, row: int)
    requires 0 < n <= |s| && Takes(s[n..], r, row) && Count(row, s[..n]) == 0
    ensures Takes(s, r, row)
  {
    CountConcat(row, s[..n], Front(s[n..], r));
    assert Front(s, r) == s[..n] + Front(s[n..], r);
  }

  lemma {:induction false} BomCount(row: int, s: seq<Byte>)
    requires row < 128 && StartsWithBom(s)
    ensures |s| >= 3 && Count(row, s[..3]) == 0
  {
    CountAbsent(row, s[..3]);
  }

  lemma {:induction false} CountAbsent(c: int, s: seq<Byte>)
    requires forall i | 0 <= i < |s| :: s[i] != c
    ensures Count(c, s) == 0
  {
    if s != [] {
      CountAbsent(c, s[1..]);
    }
  }

  lemma {:induction false} CountConcat(c: int, s: seq<Byte>, t: seq<Byte>)
    ensures Count(c, s + t) == Count(c, s) + Count(c, t)
  {
    if s == [] {
      assert s + t == t;
    } else {
      CountConcat(c, s[1..], t);
      assert (s + t)[1..] == s[1..] + t;
    }
  }

  /** The line number counts row separators exactly when the separator is neither the quote, whose
      opening occurrence is not counted, nor the byte that reads as the end of file. */
  lemma LinesAreCounted(row: int)
    requires row < 128
    ensures (forall s: seq<Byte>, notFirst: bool, sep: int ::
        |ReadField(s, notFirst, sep, row).rest| <= |s|
        && ReadField(s, notFirst, sep, row).lines == Count(row, Front(s, ReadField(s, notFirst, sep, row))))
      <==> row != QUOTE && row != EOF
  {
    if row == QUOTE {
      var s: seq<Byte> := [QUOTE];
      var r := ReadField(s, false, 0, row);
      assert s[1..] == [];
      assert Front(s, r) == s && Count(row, s) == 1 && r.lines == 0;
    } else if row == EOF {
      var s: seq<Byte> := [65];
      var r := ReadField(s, false, 0, row);
      assert s[1..] == [];
      assert Front(s, r) == s && Count(row, s) == 0 && r.lines == 1;
    } else {
      forall s: seq<Byte>, notFirst: bool, sep: int
        ensures |ReadField(s, notFirst, sep, row).rest| <= |s|
          && ReadField(s, notFirst, sep, row).lines == Count(row, Front(s, ReadField(s, notFirst, sep, row)))
      {
        ReadFieldTakes(s, notFirst, sep, row);
      }
    }
  }

  // ---- What the previous bytes say about the accumulated text ----

  predicate Tied(z: seq<Byte>, pc: int, ppc: int) {
    && (pc == QUOTE || pc == CR ==> z != [] && z[|z| - 1] == pc)
    && (pc == CR && ppc == QUOTE ==> |z| >= 2 && z[|z| - 2] == QUOTE)
  }

  /** When the field closes, the back-up loop drops exactly the closing quote, or the quote and
      the carriage return after it. */
  lemma {:induction false} BackUpDrops(z: seq<Byte>, c: int, pc: int, ppc: int, sep: int, row: int)
    requires Tied(z, pc, ppc) && Closes(c, pc, ppc, sep, row)
    ensures QUOTE in z
    ensures BackUp(z) == if pc == QUOTE then z[..|z| - 1] else z[..|z| - 2]
  {
    if pc != QUOTE {
      assert z[..|z| - 1][|z| - 2] == QUOTE;
      assert z[..|z| - 1][..|z| - 2] == z[..|z| - 2];
    }
  }

  lemma TiedAppend(z: seq<Byte>, c: Byte, pc: int, ppc: int)
    requires Tied(z, pc, ppc)
    ensures Tied(z + [c], c, pc)
  {}

  lemma TiedStart(z: seq<Byte>, ppc: int)
    ensures Tied(z, 0, ppc)
  {}

  // ---- The reader as the code writes it ----

  class ImportCtx {
    const input: seq<Byte>
    var pos: nat
    var z: array<Byte>
    var n: nat
    var nAlloc: nat
    var nLine: nat
    var bNotFirst: bool
    var cTerm: int
    const cColSep: int
    const cRowSep: int

    /** The separators come from a C `char`, so they are never the code of a byte above 127. */
    ghost predicate Valid()
      reads this
    {
      pos <= |input| && n < nAlloc == z.Length && cColSep < 128 && cRowSep < 128
    }

    function Rest(): (r: seq<Byte>)
      requires pos <= |input|
      reads this
    {
      input[pos..]
    }

    function Text(): (r: seq<Byte>)
      requires n <= z.Length
      reads this, z
    {
      z[..n]
    }

    /** The context after its first append, which makes sure that `z` is allocated. */
    constructor (input: seq<Byte>, cColSep: int, cRowSep: int)
      requires -128 <= cColSep < 128 && -128 <= cRowSep < 128
      ensures Valid() && fresh(z)
      ensures Rest() == input && !bNotFirst && nLine == 1
      ensures this.cColSep == cColSep && this.cRowSep == cRowSep && this.input == input
    {
      this.input, this.cColSep, this.cRowSep := input, cColSep, cRowSep;
      pos, n, nAlloc, nLine, bNotFirst, cTerm := 0, 1, 100, 1, false, 0;
      z := new Byte[100](_ => 0);
    }

    method Fgetc() returns (c: int)
      requires Valid()
      modifies this`pos
      ensures Valid()
      ensures c == Next(old(Rest())) && Rest() == After(old(Rest()))
      ensures c == EOF || 0 <= c < 256
    {
      if pos == |input| {
        c := EOF;
      } else {
        c := input[pos];
        pos := pos + 1;
      }
    }

    method AppendChar(c: int)
      requires Valid() && 0 <= c < 256
      modifies this`n, this`nAlloc, this`z, z
      ensures Valid() && (z == old(z) || fresh(z))
      ensures Text() == old(Text()) + [c]
    {
      if n + 1 >= nAlloc {
        nAlloc := nAlloc + nAlloc + 100;
        var a := new Byte[nAlloc](_ => 0);
        forall k | 0 <= k < n {
          a[k] := z[k];
        }
        z := a;
      }
      z[n] := c;
      n := n + 1;
    }

    /** The branch for a field that starts with a quote. */
    method ReadQuoted()
      requires Valid() && n == 0
      modifies this`pos, this`n, this`nAlloc, this`z, this`nLine, this`cTerm, z
      ensures Valid() && (z == old(z) || fresh(z))
      ensures var r := QuotedFrom(old(Rest()), [], 0, 0, 0, cColSep, cRowSep);
        && Rest() == r.rest && cTerm == r.term && nLine == old(nLine) + r.lines && Some(Text()) == r.field
    {
      hide Closes, Tied, BackUp, QuotedFrom, Quoted, Doubled;
      ghost var r := QuotedFrom(Rest(), [], 0, 0, 0, cColSep, cRowSep);
      ghost var nLine0 := nLine;
      TiedStart(Text(), 0);
      var pc, ppc := 0, 0;
      while true
        invariant Valid() && nLine >= nLine0 && (z == old(z) || fresh(z))
        invariant Tied(Text(), pc, ppc)
        invariant QuotedFrom(Rest(), Text(), pc, ppc, nLine - nLine0, cColSep, cRowSep) == r
        decreases |input| - pos
      {
        QuotedStep(Rest(), Text(), pc, ppc, nLine - nLine0, cColSep, cRowSep);
        var c := Fgetc();
        if c == cRowSep {
          nLine := nLine + 1;
        }
        if c == QUOTE && pc == QUOTE {
          pc := 0;
          TiedStart(Text(), ppc);
          continue;
        }
        if Closes(c, pc, ppc, cColSep, cRowSep) {
          Unquote(c, pc, ppc);
          cTerm := c;
          break;
        }
        if c == EOF {
          cTerm := c;
          break;
        }
        TiedAppend(Text(), c, pc, ppc);
        AppendChar(c);
        ppc := pc;
        pc := c;
      }
    }

    /** The back-up loop. It stays inside the text because the closing quote is there. */
    method Unquote(c: int, pc: int, ppc: int)
      requires Valid() && Tied(Text(), pc, ppc) && Closes(c, pc, ppc, cColSep, cRowSep)
      modifies this`n
      ensures Valid() && Text() == BackUp(old(Text()))
    {
      BackUpDrops(Text(), c, pc, ppc, cColSep, cRowSep);
      n := n - 1;
      while z[n] != QUOTE
        invariant 0 <= n < nAlloc && n < old(n)
        invariant QUOTE in z[..n + 1]
        invariant BackUp(z[..n + 1]) == BackUp(old(Text()))
        decreases n
      {
        assert z[..n + 1][..n] == z[..n];
        n := n - 1;
      }
      assert z[..n + 1][..n] == z[..n];
    }

    /** The loop over an unquoted field, whose next byte `c` has been read from `s`. */
    method ReadPlain(c0: int, ghost s: seq<Byte>)
      requires Valid() && c0 == Next(s) && Rest() == After(s)
      modifies this`pos, this`n, this`nAlloc, this`z, this`nLine, this`cTerm, z
      ensures Valid() && (z == old(z) || fresh(z))
      ensures var r := PlainFrom(s, old(Text()), cColSep, cRowSep);
        && Rest() == r.rest && cTerm == r.term && nLine == old(nLine) + r.lines && Some(Text()) == r.field
    {
      hide PlainFrom;
      ghost var t := s;
      var c := c0;
      while c != EOF && c != cColSep && c != cRowSep
        invariant Valid() && (z == old(z) || fresh(z)) && nLine == old(nLine)
        invariant c == Next(t) && Rest() == After(t)
        invariant PlainFrom(t, Text(), cColSep, cRowSep) == PlainFrom(s, old(Text()), cColSep, cRowSep)
        decreases |t|
      {
        PlainStep(t, Text(), cColSep, cRowSep);
        t := After(t);
        AppendChar(c);
        c := Fgetc();
      }
      PlainStep(t, Text(), cColSep, cRowSep);
      if c == cRowSep {
        nLine := nLine + 1;
        if n > 0 && z[n - 1] == CR {
          assert Text()[..n - 1] == z[..n - 1];
          n := n - 1;
        }
      }
      cTerm := c;
    }

    /** The test for a byte order mark. Its bytes are kept when the mark turns out incomplete. */
    method SkipBom(c0: int, ghost s: seq<Byte>) returns (bom: bool, c: int, ghost t: seq<Byte>)
      requires Valid() && s != [] && c0 == s[0] && Rest() == s[1..] && n == 0
      modifies this`pos, this`n, this`nAlloc, this`z, this`bNotFirst, z
      ensures Valid() && (z == old(z) || fresh(z))
      ensures bom == (StartsWithBom(s) && !old(bNotFirst))
      ensures bom ==> n == 0 && bNotFirst && Rest() == s[3..]
      ensures !bom ==> bNotFirst == old(bNotFirst) && c == Next(t) && Rest() == After(t)
      ensures !bom ==> PlainFrom(t, Text(), cColSep, cRowSep) == PlainFrom(s, [], cColSep, cRowSep)
    {
      bom, c, t := false, c0, s;
      if c == 0xEF && !bNotFirst {
        AppendChar(c);
        t := s[1..];
        c := Fgetc();
        if c == 0xBB {
          AppendChar(c);
          t := s[2..];
          c := Fgetc();
          if c == 0xBF {
            bNotFirst := true;
            n := 0;
            bom := true;
          }
        }
      }
    }

    /** One field. The result tells whether the returned pointer is not null; the text is then
        the first `n` bytes of `z`, followed by a NUL. */
    method ReadOne() returns (ok: bool)
      requires Valid()
      modifies this`pos, this`n, this`nAlloc, this`z, this`nLine, this`bNotFirst, this`cTerm, z
      ensures Valid() && (z == old(z) || fresh(z))
      ensures var r := ReadField(old(Rest()), old(bNotFirst), cColSep, cRowSep);
        && Rest() == r.rest && cTerm == r.term && nLine == old(nLine) + r.lines && bNotFirst == r.notFirst
        && ok == r.field.Some? && (ok ==> Text() == r.field.value && z[n] == 0)
      decreases |input| - pos
    {
      hide QuotedFrom, PlainFrom, ReadField;
      ghost var s := Rest();
      ReadNothing(bNotFirst, cColSep, cRowSep);
      n := 0;
      var c := Fgetc();
      if c == EOF {
        cTerm := EOF;
        return false;
      }
      ReadFieldCases(s, bNotFirst, cColSep, cRowSep);
      if c == QUOTE {
        ReadQuoted();
      } else {
        var bom: bool;
        ghost var t: seq<Byte>;
        bom, c, t := SkipBom(c, s);
        if bom {
          ok := ReadOne();
          return;
        }
        ReadPlain(c, t);
      }
      z[n] := 0;
      bNotFirst := true;
      ok := true;
    }
  }

  // ---- Records and rows ----

  /** The bytes of a C string: what sqlite3_bind_text() takes of a text. */
  function CText(z: seq<Byte>): (r: seq<Byte>) { Until(z, 0) }

  function Bound(f: Option<seq<Byte>>): (r: Option<seq<Byte>>) {
    match f case None => None case Some(z) => Some(CText(z))
  }

  type Row = seq<Option<seq<Byte>>>

  datatype Record = Record(fields: Row, term: int, rest: seq<Byte>, notFirst: bool)

  /** All fields up to one that the column separator does not end. */
  function ReadRecord(s: seq<Byte>, notFirst: bool, sep: int, row: int): (rec: Record)
    requires sep != EOF
    ensures rec.fields != [] && rec.term != sep && (rec.fields[0].None? ==> rec.term == EOF)
    ensures |rec.rest| <= |s| && (rec.term != EOF ==> |rec.rest| < |s|)
    decreases |s|
  {
    var r := ReadField(s, notFirst, sep, row);
    if r.term == sep then
      var more := ReadRecord(r.rest, r.notFirst, sep, row);
      Record([r.field] + more.fields, more.term, more.rest, more.notFirst)
    else Record([r.field], r.term, r.rest, r.notFirst)
  }

  // ---- Where the loops end ----

  /** The `k`th call on a stream, counted from one. */
  function Call(s: seq<Byte>, notFirst: bool, sep: int, row: int, k: nat): (r: Read)
    decreases k
  {
    var r := ReadField(s, notFirst, sep, row);
    if k <= 1 then r else Call(r.rest, r.notFirst, sep, row, k - 1)
  }

  /** The loops over one record go on while the column separator ends the field. */
  ghost predicate RecordEnds(s: seq<Byte>, notFirst: bool, sep: int, row: int) {
    exists k: nat | k >= 1 :: Call(s, notFirst, sep, row, k).term != sep
  }

  /** The row loop ends when the end of the file ends a record. */
  ghost predicate ImportEnds(s: seq<Byte>, notFirst: bool, sep: int, row: int) {
    exists k: nat | k >= 1 :: Call(s, notFirst, sep, row, k).term == EOF && Call(s, notFirst, sep, row, k).term != sep
  }

  /** The loops over one record never come to their end: from some call on the separator ends every field. */
  ghost predicate ReadsForEver(s: seq<Byte>, notFirst: bool, sep: int, row: int) {
    exists k0: nat :: StuckFrom(s, notFirst, sep, row, k0)
  }

  ghost predicate StuckFrom(s: seq<Byte>, notFirst: bool, sep: int, row: int, k0: nat) {
    forall k: nat | k >= k0 :: Call(s, notFirst, sep, row, k).term == sep
  }

  lemma {:induction false} ReachesEof(s: seq<Byte>, notFirst: bool, sep: int, row: int) returns (k: nat)
    ensures k >= 1 && Call(s, notFirst, sep, row, k).term == EOF
    decreases |s|
  {
    hide ReadField;
    var r := ReadField(s, notFirst, sep, row);
    if r.term == EOF {
      k := 1;
    } else {
      k := ReachesEof(r.rest, r.notFirst, sep, row);
      k := k + 1;
    }
  }

  /** At the end of the file a call takes nothing and ends with EOF, however often it is made. */
  lemma {:induction false} EofForEver(notFirst: bool, sep: int, row: int, k: nat)
    ensures Call([], notFirst, sep, row, k) == Read(None, EOF, [], 0, notFirst)
  {
    ReadNothing(notFirst, sep, row);
    hide ReadField;
    if k > 1 {
      EofForEver(notFirst, sep, row, k - 1);
    }
  }

  /** Every record ends, on every stream, exactly if the separator does not read as the end of the
      file: a `char` of 0xFF does where `char` is signed. */
  lemma {:induction false} RecordsEnd(sep: int, row: int)
    ensures (forall s: seq<Byte>, notFirst: bool :: RecordEnds(s, notFirst, sep, row)) <==> sep != EOF
  {
    if sep != EOF {
      forall s: seq<Byte>, notFirst: bool ensures RecordEnds(s, notFirst, sep, row) {
        var k := ReachesEof(s, notFirst, sep, row);
      }
    } else {
      forall k: nat ensures Call([], false, sep, row, k).term == sep {
        EofForEver(false, sep, row, k);
      }
      assert !RecordEnds([], false, sep, row);
    }
  }

  /** The calls after the `j`th are those on what it leaves. */
  lemma {:induction false} CallBehind(s: seq<Byte>, notFirst: bool, sep: int, row: int, j: nat, k: nat)
    requires 1 <= j < k
    ensures var r := Call(s, notFirst, sep, row, j);
      Call(s, notFirst, sep, row, k) == Call(r.rest, r.notFirst, sep, row, k - j)
    decreases j
  {
    hide ReadField;
    if j > 1 {
      var r := ReadField(s, notFirst, sep, row);
      CallBehind(r.rest, r.notFirst, sep, row, j - 1, k - 1);
    }
  }

  /** A call that ends with the end of the file leaves nothing. */
  lemma {:induction false} EofLeavesNothing(s: seq<Byte>, notFirst: bool, sep: int, row: int, k: nat)
    requires row < 128 && Call(s, notFirst, sep, row, k).term == EOF
    ensures Call(s, notFirst, sep, row, k).rest == []
    decreases k
  {
    ReadFieldTakes(s, notFirst, sep, row);
    hide ReadField;
    if k > 1 {
      var r := ReadField(s, notFirst, sep, row);
      EofLeavesNothing(r.rest, r.notFirst, sep, row, k - 1);
    }
  }

  /** Every stream has a call from which on all calls end with the end of the file. */
  lemma {:induction false} EofStays(s: seq<Byte>, notFirst: bool, sep: int, row: int) returns (k0: nat)
    requires row < 128
    ensures k0 >= 1 && forall k: nat | k >= k0 :: Call(s, notFirst, sep, row, k).term == EOF
  {
    k0 := ReachesEof(s, notFirst, sep, row);
    EofLeavesNothing(s, notFirst, sep, row, k0);
    forall k: nat | k >= k0 ensures Call(s, notFirst, sep, row, k).term == EOF {
      if k > k0 {
        CallBehind(s, notFirst, sep, row, k0, k);
        EofForEver(Call(s, notFirst, sep, row, k0).notFirst, sep, row, k - k0);
      }
    }
  }

  /** With such a separator the loops over a record read on for ever on every stream, once the end of the
      file is reached; with any other they do on none, and the import ends. */
  lemma {:induction false} ImportEndsExactly(s: seq<Byte>, notFirst: bool, sep: int, row: int)
    requires row < 128
    ensures ReadsForEver(s, notFirst, sep, row) <==> sep == EOF
    ensures ImportEnds(s, notFirst, sep, row) <==> !ReadsForEver(s, notFirst, sep, row)
  {
    var k1 := EofStays(s, notFirst, sep, row);
    hide Call;
    if sep == EOF {
      assert StuckFrom(s, notFirst, sep, row, k1);
      assert forall k: nat | k >= 1 && Call(s, notFirst, sep, row, k).term == EOF :: Call(s, notFirst, sep, row, k).term == sep;
    } else {
      forall k0: nat ensures !StuckFrom(s, notFirst, sep, row, k0) {
        var k := if k0 > k1 then k0 else k1;
        assert Call(s, notFirst, sep, row, k).term == EOF;
      }
      assert Call(s, notFirst, sep, row, k1).term == EOF;
    }
  }

  /** A record is the calls up to the first that the separator does not end. */
  lemma {:induction false} RecordIsCalls(s: seq<Byte>, notFirst: bool, sep: int, row: int)
    requires sep != EOF
    ensures var rec := ReadRecord(s, notFirst, sep, row);
      var last := Call(s, notFirst, sep, row, |rec.fields|);
      && last.term == rec.term != sep && last.rest == rec.rest && last.notFirst == rec.notFirst
      && forall k | 1 <= k <= |rec.fields| ::
        rec.fields[k - 1] == Call(s, notFirst, sep, row, k).field
        && (k < |rec.fields| ==> Call(s, notFirst, sep, row, k).term == sep)
    decreases |s|
  {
    hide ReadField;
    var r := ReadField(s, notFirst, sep, row);
    var rec := ReadRecord(s, notFirst, sep, row);
    if r.term == sep {
      var more := ReadRecord(r.rest, r.notFirst, sep, row);
      RecordIsCalls(r.rest, r.notFirst, sep, row);
      assert rec.fields == [r.field] + more.fields;
      forall k | 1 <= k <= |rec.fields|
        ensures rec.fields[k - 1] == Call(s, notFirst, sep, row, k).field
          && (k < |rec.fields| ==> Call(s, notFirst, sep, row, k).term == sep)
      {
        if k > 1 {
          assert rec.fields[k - 1] == more.fields[k - 2];
          assert Call(s, notFirst, sep, row, k) == Call(r.rest, r.notFirst, sep, row, k - 1);
        }
      }
    }
  }

  /** The first `nCol` fields, the missing ones NULL. */
  function Fitted(fields: Row, nCol: nat): (r: Row) {
    seq(nCol, i requires 0 <= i < nCol => if i < |fields| then Bound(fields[i]) else None)
  }

  /** Column `i` takes field `i` of the record, and NULL where there is none. */
  lemma FittedCells(fields: Row, nCol: nat)
    ensures |Fitted(fields, nCol)| == nCol
    ensures forall i | 0 <= i < nCol ::
      Fitted(fields, nCol)[i] == if i < |fields| && fields[i].Some? then Some(CText(fields[i].value)) else None
  {}

  lemma {:induction false} CTextStops(z: seq<Byte>)
    ensures CText(z) <= z && 0 !in CText(z) && (|CText(z)| < |z| ==> z[|CText(z)|] == 0)
  {
    if z != [] && z[0] != 0 {
      CTextStops(z[1..]);
    }
  }

  /** The records of a stream up to its end, whatever the number of their fields. */
  function Records(s: seq<Byte>, notFirst: bool, sep: int, row: int): (recs: seq<Row>)
    requires sep != EOF
    decreases |s|
  {
    var rec := ReadRecord(s, notFirst, sep, row);
    if rec.fields[0].None? then []
    else [rec.fields] + if rec.term == EOF then [] else Records(rec.rest, rec.notFirst, sep, row)
  }

  lemma {:induction false} RowsAreRecords(s: seq<Byte>, notFirst: bool, nCol: nat, sep: int, row: int)
    requires sep != EOF
    ensures var rows, recs := Rows(s, notFirst, nCol, sep, row), Records(s, notFirst, sep, row);
      && |rows| == |recs|
      && forall k | 0 <= k < |rows| :: |rows[k]| == nCol && forall i | 0 <= i < nCol ::
        rows[k][i] == if i < |recs[k]| && recs[k][i].Some? then Some(CText(recs[k][i].value)) else None
    decreases |s|
  {
    hide ReadRecord, Fitted, CText;
    var rec := ReadRecord(s, notFirst, sep, row);
    FittedCells(rec.fields, nCol);
    if rec.fields[0].Some? && rec.term != EOF {
      RowsAreRecords(rec.rest, rec.notFirst, nCol, sep, row);
    }
  }

  /** The rows of a stream: its records in order, each fitted to `nCol` columns. */
  function Rows(s: seq<Byte>, notFirst: bool, nCol: nat, sep: int, row: int): (r: seq<Row>)
    requires sep != EOF
    decreases |s|
  {
    var rec := ReadRecord(s, notFirst, sep, row);
    if rec.fields[0].None? then []
    else [Fitted(rec.fields, nCol)] + if rec.term == EOF then [] else Rows(rec.rest, rec.notFirst, nCol, sep, row)
  }

  lemma {:induction false} RowsStep(s: seq<Byte>, notFirst: bool, nCol: nat, sep: int, row: int)
    requires sep != EOF
    ensures var rec, rows := ReadRecord(s, notFirst, sep, row), Rows(s, notFirst, nCol, sep, row);
      && (rec.fields[0].None? ==> rows == [])
      && (rec.fields[0].Some? && rec.term == EOF ==> rows == [Fitted(rec.fields, nCol)])
      && (rec.fields[0].Some? && rec.term != EOF ==>
          rows == [Fitted(rec.fields, nCol)] + Rows(rec.rest, rec.notFirst, nCol, sep, row))
  {
    hide ReadRecord, Fitted;
  }

  /** `got` are the fields of `whole` read so far, the last of them ended by `term`; the stream
      stands behind it. */
  ghost predicate Reading(got: Row, term: int, rest: seq<Byte>, notFirst: bool, whole: Record, sep: int, row: int)
    requires sep != EOF
  {
    if got == [] || term == sep then
      var more := ReadRecord(rest, notFirst, sep, row);
      whole == Record(got + more.fields, more.term, more.rest, more.notFirst)
    else whole == Record(got, term, rest, notFirst)
  }

  lemma ReadingMore(got: Row, term: int, rest: seq<Byte>, notFirst: bool, whole: Record, sep: int, row: int)
    requires sep != EOF && (got == [] || term == sep)
    requires Reading(got, term, rest, notFirst, whole, sep, row)
    ensures var r := ReadField(rest, notFirst, sep, row);
      Reading(got + [r.field], r.term, r.rest, r.notFirst, whole, sep, row)
  {
    hide ReadField;
    var r := ReadField(rest, notFirst, sep, row);
    if r.term == sep {
      var more := ReadRecord(r.rest, r.notFirst, sep, row);
      assert got + ([r.field] + more.fields) == (got + [r.field]) + more.fields;
    }
  }

  /** The loop over the columns. `binds` are the bindings of the prepared statement left by the
      last pass; the result `i` is the loop counter at its end. */
  method BindFields(p: ImportCtx, nCol: nat, binds: Row, ghost whole: Record)
      returns (binds': Row, i: nat, ghost got: Row)
    requires p.Valid() && p.cColSep != EOF && 1 <= nCol == |binds|
    requires whole == ReadRecord(p.Rest(), p.bNotFirst, p.cColSep, p.cRowSep)
    modifies p`pos, p`n, p`nAlloc, p`z, p`nLine, p`bNotFirst, p`cTerm, p.z
    ensures p.Valid() && (p.z == old(p.z) || fresh(p.z)) && |binds'| == nCol
    ensures 1 <= |got| <= nCol && Reading(got, p.cTerm, p.Rest(), p.bNotFirst, whole, p.cColSep, p.cRowSep)
    ensures p.cTerm == p.cColSep ==> |got| == nCol
    ensures got[0].None? ==> i == 0 && p.cTerm == EOF
    ensures got[0].Some? ==> i >= nCol && binds' == Fitted(got, nCol)
  {
    hide ReadField, ReadRecord, Reading, CText;
    got, binds', i := [], binds, 0;
    ReadingNothing(whole, p.cTerm, p.Rest(), p.bNotFirst, p.cColSep, p.cRowSep);
    while i < nCol
      invariant p.Valid() && (p.z == old(p.z) || fresh(p.z)) && |binds'| == nCol
      invariant Reading(got, p.cTerm, p.Rest(), p.bNotFirst, whole, p.cColSep, p.cRowSep)
      invariant i <= nCol ==> |got| == i && (i == 0 || i == nCol || p.cTerm == p.cColSep)
      invariant i > nCol ==> 1 <= |got| < nCol && p.cTerm != p.cColSep && forall k | |got| <= k < nCol :: binds'[k] == None
      invariant i > 0 ==> got[0].Some?
      invariant forall k | 0 <= k < |got| :: binds'[k] == Bound(got[k])
      decreases nCol - i
    {
      ghost var before := got;
      ghost var r := ReadField(p.Rest(), p.bNotFirst, p.cColSep, p.cRowSep);
      ReadingMore(got, p.cTerm, p.Rest(), p.bNotFirst, whole, p.cColSep, p.cRowSep);
      var ok := p.ReadOne();
      got := got + [r.field];
      if !ok && i == 0 {
        break;
      }
      binds' := binds'[i := if ok then Some(CText(p.Text())) else None];
      if i < nCol - 1 && p.cTerm != p.cColSep {
        i := i + 2;
        while i <= nCol
          invariant |got| + 1 <= i <= nCol + 1
          invariant |binds'| == nCol
          invariant forall k | 0 <= k < |got| :: binds'[k] == Bound(got[k])
          invariant forall k | |got| <= k < i - 1 :: binds'[k] == None
        {
          binds' := binds'[i - 1 := None];
          i := i + 1;
        }
      }
      i := i + 1;
    }
  }

  lemma {:induction false} ReadingNothing(whole: Record, term: int, rest: seq<Byte>, notFirst: bool, sep: int, row: int)
    requires sep != EOF && whole == ReadRecord(rest, notFirst, sep, row)
    ensures Reading([], term, rest, notFirst, whole, sep, row)
  {
    assert [] + whole.fields == whole.fields;
  }

  /** The loop that reads and ignores the fields beyond the last column. */
  method SkipExtras(p: ImportCtx, i0: nat, ghost whole: Record, ghost got: Row) returns (i: nat)
    requires p.Valid() && p.cColSep != EOF && got != []
    requires Reading(got, p.cTerm, p.Rest(), p.bNotFirst, whole, p.cColSep, p.cRowSep)
    modifies p`pos, p`n, p`nAlloc, p`z, p`nLine, p`bNotFirst, p`cTerm, p.z
    ensures p.Valid() && (p.z == old(p.z) || fresh(p.z)) && i >= i0
    ensures p.Rest() == whole.rest && p.bNotFirst == whole.notFirst && p.cTerm == whole.term
    ensures got <= whole.fields && (old(p.cTerm) != p.cColSep ==> whole.fields == got && i == i0)
  {
    hide ReadField, ReadRecord;
    i := i0;
    ghost var all := got;
    while p.cTerm == p.cColSep
      invariant p.Valid() && (p.z == old(p.z) || fresh(p.z)) && i >= i0
      invariant all != [] && got <= all && Reading(all, p.cTerm, p.Rest(), p.bNotFirst, whole, p.cColSep, p.cRowSep)
      invariant old(p.cTerm) != p.cColSep ==> all == got && i == i0
      decreases |p.Rest()|, if p.cTerm == p.cColSep then 1 else 0
    {
      ghost var r := ReadField(p.Rest(), p.bNotFirst, p.cColSep, p.cRowSep);
      ReadingMore(all, p.cTerm, p.Rest(), p.bNotFirst, whole, p.cColSep, p.cRowSep);
      all := all + [r.field];
      var ok := p.ReadOne();
      i := i + 1;
    }
  }

  /** One pass of the row loop: reads exactly one record and, unless the stream had ended, inserts
      the values bound to the prepared statement, which are the record fitted to the table. */
  method ReadRow(p: ImportCtx, nCol: nat, binds: Row) returns (inserted: bool, binds': Row)
    requires p.Valid() && p.cColSep != EOF && 1 <= nCol == |binds|
    modifies p`pos, p`n, p`nAlloc, p`z, p`nLine, p`bNotFirst, p`cTerm, p.z
    ensures p.Valid() && (p.z == old(p.z) || fresh(p.z)) && |binds'| == nCol
    ensures var rec := ReadRecord(old(p.Rest()), old(p.bNotFirst), p.cColSep, p.cRowSep);
      && p.Rest() == rec.rest && p.bNotFirst == rec.notFirst && p.cTerm == rec.term
      && inserted == rec.fields[0].Some? && (inserted ==> binds' == Fitted(rec.fields, nCol))
      && (inserted ==> forall i | 0 <= i < nCol ::
          binds'[i] == if i < |rec.fields| && rec.fields[i].Some? then Some(CText(rec.fields[i].value)) else None)
  {
    hide ReadRecord, Reading;
    ghost var whole := ReadRecord(p.Rest(), p.bNotFirst, p.cColSep, p.cRowSep);
    var i: nat;
    ghost var got: Row;
    binds', i, got := BindFields(p, nCol, binds, whole);
    i := SkipExtras(p, i, whole, got);
    inserted := i >= nCol;
    assert got[0] == whole.fields[0];
    if inserted {
      assert Fitted(got, nCol) == Fitted(whole.fields, nCol);
      FittedCells(whole.fields, nCol);
    }
  }

  /** The row loop of .import over a table of `nCol` columns: the rows inserted. */
  method ImportRows(p: ImportCtx, nCol: nat) returns (rows: seq<Row>)
    requires p.Valid() && p.cColSep != EOF && 1 <= nCol
    modifies p`pos, p`n, p`nAlloc, p`z, p`nLine, p`bNotFirst, p`cTerm, p.z
    ensures rows == Rows(old(p.Rest()), old(p.bNotFirst), nCol, p.cColSep, p.cRowSep)
    ensures var recs := Records(old(p.Rest()), old(p.bNotFirst), p.cColSep, p.cRowSep);
      && |rows| == |recs|
      && forall k | 0 <= k < |rows| :: |rows[k]| == nCol && forall i | 0 <= i < nCol ::
        rows[k][i] == if i < |recs[k]| && recs[k][i].Some? then Some(CText(recs[k][i].value)) else None
  {
    hide ReadRecord, Fitted, Rows, Records, CText;
    ghost var s, notFirst := p.Rest(), p.bNotFirst;
    ghost var all := Rows(p.Rest(), p.bNotFirst, nCol, p.cColSep, p.cRowSep);
    rows := [];
    var binds: Row := seq(nCol, _ => None);
    var done := false;
    while !done
      invariant p.Valid() && (p.z == old(p.z) || fresh(p.z)) && |binds| == nCol
      invariant all == rows + ToRead(p, nCol, done)
      decreases !done, |p.Rest()|
    {
      RowsStep(p.Rest(), p.bNotFirst, nCol, p.cColSep, p.cRowSep);
      ghost var before := rows;
      var inserted: bool;
      inserted, binds := ReadRow(p, nCol, binds);
      if inserted {
        rows := rows + [binds];
      }
      done := p.cTerm == EOF;
      Assoc(before, [binds], ToRead(p, nCol, done));
    }
    RowsAreRecords(s, notFirst, nCol, p.cColSep, p.cRowSep);
  }

  /** The rows the loop has still to insert. */
  ghost function ToRead(p: ImportCtx, nCol: nat, done: bool): (r: seq<Row>)
    requires p.Valid() && p.cColSep != EOF
    reads p
  {
    if done then [] else Rows(p.Rest(), p.bNotFirst, nCol, p.cColSep, p.cRowSep)
  }
}
