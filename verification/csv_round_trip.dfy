/** What MODE_Csv writes, .import reads back. */
module CsvRoundTrip {
  import opened Seqs
  import opened Wrappers
  import opened Csv

  /** The terms of one row, separated. */
  function TermsText(row: Row, nullValue: seq<Byte>, colSep: seq<Byte>): (r: seq<Byte>) {
    if row == [] then []
    else TermText(row[0], nullValue, colSep, |row| > 1) + TermsText(row[1..], nullValue, colSep)
  }

  function TermText(f: Option<seq<Byte>>, nullValue: seq<Byte>, colSep: seq<Byte>, bSep: bool): (r: seq<Byte>) {
    (match f case None => nullValue case Some(z) => FieldText(z, colSep)) + (if bSep then colSep else [])
  }

  function RowText(row: Row, nullValue: seq<Byte>, colSep: seq<Byte>, rowSep: seq<Byte>): (r: seq<Byte>) {
    if row == [] then [] else TermsText(row, nullValue, colSep) + rowSep
  }

  function TableText(t: seq<Row>, nullValue: seq<Byte>, colSep: seq<Byte>, rowSep: seq<Byte>): (r: seq<Byte>) {
    if t == [] then [] else RowText(t[0], nullValue, colSep, rowSep) + TableText(t[1..], nullValue, colSep, rowSep)
  }

  /** The separator stands between two terms and nowhere else. */
  lemma {:induction false} TermsGrow(row: Row, f: Option<seq<Byte>>, nullValue: seq<Byte>, colSep: seq<Byte>)
    ensures var term := match f case None => nullValue case Some(z) => FieldText(z, colSep);
      TermsText(row + [f], nullValue, colSep) == if row == [] then term else TermsText(row, nullValue, colSep) + colSep + term
  {
    hide FieldText;
    var term := match f case None => nullValue case Some(z) => FieldText(z, colSep);
    if row == [] {
      assert row + [f] == [f] && [f][1..] == [];
      Empty(term);
    } else {
      TailOfBoth(row, [f]);
      TermsGrow(row[1..], f, nullValue, colSep);
      var first, more := TermText(row[0], nullValue, colSep, true), TermsText(row[1..], nullValue, colSep);
      Assoc(first, more, colSep);
      Assoc(first, more + colSep, term);
      if |row| == 1 {
        assert row[1..] == [];
        Empty(TermText(row[0], nullValue, colSep, false));
      }
    }
  }

  /** The MODE_Csv branch for the rows of a result, without a header. */
  method WriteTable(t: seq<Row>, nullValue: seq<Byte>, colSep: seq<Byte>, rowSep: seq<Byte>) returns (out: seq<Byte>)
    ensures out == TableText(t, nullValue, colSep, rowSep)
  {
    hide RowText;
    out := [];
    var k := 0;
    while k < |t|
      invariant 0 <= k <= |t|
      invariant out + TableText(t[k..], nullValue, colSep, rowSep) == TableText(t, nullValue, colSep, rowSep)
    {
      out := WriteRow(out, t[k], nullValue, colSep, rowSep);
      assert t[k..][1..] == t[k + 1..];
      k := k + 1;
    }
  }

  method WriteRow(out: seq<Byte>, row: Row, nullValue: seq<Byte>, colSep: seq<Byte>, rowSep: seq<Byte>)
      returns (out': seq<Byte>)
    ensures out' == out + RowText(row, nullValue, colSep, rowSep)
  {
    hide FieldText;
    out' := out;
    if |row| > 0 {
      var i := 0;
      while i < |row|
        invariant 0 <= i <= |row|
        invariant out' + TermsText(row[i..], nullValue, colSep) == out + TermsText(row, nullValue, colSep)
      {
        ghost var b := TermText(row[i], nullValue, colSep, i < |row| - 1);
        out' := OutputCsv(out', row[i], nullValue, colSep, i < |row| - 1);
        assert row[i..][1..] == row[i + 1..];
        assert TermsText(row[i..], nullValue, colSep) == b + TermsText(row[i + 1..], nullValue, colSep);
        i := i + 1;
      }
      assert out' == out + TermsText(row, nullValue, colSep);
      out' := out' + rowSep;
    } else {
      assert out' == out + [];
    }
  }

  // ---- Reading one written field ----

  /** The separators that work. */
  predicate Separator(sep: Byte) { 0 < sep < 128 && sep != QUOTE && sep != LF }

  /** What can end a field. A carriage return that is the separator ends it alone. */
  predicate EndsField(e: seq<Byte>, sep: Byte) { e == [sep] || e == [LF] || (e == [CR, LF] && sep != CR) }

  /** Between the bytes of a quoted value the reader is never about to close the field. */
  predicate Inside(pc: int, ppc: int) { pc != QUOTE && !(pc == CR && ppc == QUOTE) }

  lemma {:induction false} QuotedBody(f: seq<Byte>, t: seq<Byte>, z: seq<Byte>, pc: int, ppc: int, lines: nat, sep: int, row: int)
      returns (pc': int, ppc': int, lines': nat)
    requires Inside(pc, ppc)
    ensures Inside(pc', ppc')
    ensures QuotedFrom(Doubled(f) + t, z, pc, ppc, lines, sep, row) == QuotedFrom(t, z + f, pc', ppc', lines', sep, row)
    decreases |f|
  {
    hide BackUp;
    if f == [] {
      assert Doubled(f) + t == t && z + f == z;
      return pc, ppc, lines;
    }
    var b := f[0];
    var n := lines + LineEnd(b, row);
    var u := Doubled(f[1..]) + t;
    assert z + f == (z + [b]) + f[1..];
    if b == QUOTE {
      assert Doubled(f) + t == [QUOTE, QUOTE] + u;
      assert ([QUOTE, QUOTE] + u)[1..] == [QUOTE] + u && ([QUOTE] + u)[1..] == u;
      pc', ppc', lines' := QuotedBody(f[1..], t, z + [b], 0, pc, n + LineEnd(b, row), sep, row);
    } else {
      assert Doubled(f) + t == [b] + u;
      assert ([b] + u)[1..] == u;
      pc', ppc', lines' := QuotedBody(f[1..], t, z + [b], b, pc, n, sep, row);
    }
  }

  lemma {:induction false} QuotedEnd(z: seq<Byte>, e: seq<Byte>, rest: seq<Byte>, pc: int, ppc: int, lines: nat, sep: Byte)
    requires Inside(pc, ppc)
    requires sep != QUOTE && EndsField(e, sep)
    ensures var r := QuotedFrom([QUOTE] + e + rest, z, pc, ppc, lines, sep, LF);
      r.field == Some(z) && r.term == e[|e| - 1] && r.rest == rest
  {
    assert ([QUOTE] + e + rest)[1..] == e + rest;
    var n := lines + LineEnd(QUOTE, LF);
    var q := z + [QUOTE];
    assert QuotedFrom([QUOTE] + e + rest, z, pc, ppc, lines, sep, LF) == QuotedFrom(e + rest, q, QUOTE, pc, n, sep, LF);
    assert q[..|q| - 1] == z;
    assert BackUp(q) == z;
    if e == [CR, LF] {
      assert (e + rest)[1..] == [LF] + rest;
      var p := q + [CR];
      assert p[..|p| - 1] == q;
      assert ([LF] + rest)[1..] == rest;
      assert QuotedFrom(e + rest, q, QUOTE, pc, n, sep, LF) == QuotedFrom([LF] + rest, p, CR, QUOTE, n + LineEnd(CR, LF), sep, LF);
    } else {
      assert (e + rest)[1..] == rest;
    }
  }

  lemma {:induction false} PlainBody(f: seq<Byte>, t: seq<Byte>, z: seq<Byte>, sep: int, row: int)
    requires forall i | 0 <= i < |f| :: f[i] != sep && f[i] != row
    ensures PlainFrom(f + t, z, sep, row) == PlainFrom(t, z + f, sep, row)
    decreases |f|
  {
    if f == [] {
      assert f + t == t && z + f == z;
    } else {
      assert (f + t)[1..] == f[1..] + t && z + f == (z + [f[0]]) + f[1..];
      PlainBody(f[1..], t, z + [f[0]], sep, row);
    }
  }

  lemma {:induction false} PlainEnd(f: seq<Byte>, e: seq<Byte>, rest: seq<Byte>, sep: Byte)
    requires (f != [] ==> f[|f| - 1] != CR) && sep != LF && EndsField(e, sep)
    ensures var r := PlainFrom(e + rest, f, sep, LF);
      r.field == Some(f) && r.term == e[|e| - 1] && r.rest == rest
  {
    hide PlainFrom;
    PlainStep(e + rest, f, sep, LF);
    if e == [CR, LF] {
      assert (e + rest)[1..] == [LF] + rest;
      PlainStep([LF] + rest, f + [CR], sep, LF);
      LastOf(f, CR);
      FirstOf(LF, rest);
    } else {
      FirstOf(e[0], rest);
      assert Trimmed(f) == f;
    }
  }

  lemma Opened(d: seq<Byte>, e: seq<Byte>, rest: seq<Byte>)
    ensures var s := [QUOTE] + d + [QUOTE] + e + rest;
      s != [] && s[0] == QUOTE && s[1..] == d + ([QUOTE] + e + rest)
  {}

  lemma {:induction false} QuotedFieldRead(f: seq<Byte>, e: seq<Byte>, rest: seq<Byte>, notFirst: bool, sep: Byte)
    requires Separator(sep) && EndsField(e, sep)
    ensures var r := ReadField([QUOTE] + Doubled(f) + [QUOTE] + e + rest, notFirst, sep, LF);
      r.field == Some(f) && r.term == e[|e| - 1] && r.rest == rest && r.notFirst
  {
    hide ReadField, QuotedFrom, Doubled, BackUp;
    var s := [QUOTE] + Doubled(f) + [QUOTE] + e + rest;
    Opened(Doubled(f), e, rest);
    ReadFieldCases(s, notFirst, sep, LF);
    var pc, ppc, n := QuotedBody(f, [QUOTE] + e + rest, [], 0, 0, 0, sep, LF);
    assert [] + f == f;
    QuotedEnd(f, e, rest, pc, ppc, n, sep);
  }

  lemma PlainFieldRead(f: seq<Byte>, e: seq<Byte>, rest: seq<Byte>, notFirst: bool, sep: Byte)
    requires Separator(sep) && EndsField(e, sep)
    requires forall i | 0 <= i < |f| :: f[i] != sep && f[i] != LF && f[i] != CR && f[i] != QUOTE
    requires notFirst || !StartsWithBom(f + e + rest)
    ensures var r := ReadField(f + e + rest, notFirst, sep, LF);
      r.field == Some(f) && r.term == e[|e| - 1] && r.rest == rest && r.notFirst
  {
    var s := f + e + rest;
    assert s[0] == if f == [] then e[0] else f[0];
    ReadFieldCases(s, notFirst, sep, LF);
    hide ReadField, PlainFrom;
    assert s == f + (e + rest);
    PlainBody(f, e + rest, [], sep, LF);
    assert [] + f == f;
    PlainEnd(f, e, rest, sep);
  }

  /** A field as written, followed by either kind of separator, is read back and the separator is
      what ended it. */
  lemma FieldRead(f: seq<Byte>, e: seq<Byte>, rest: seq<Byte>, notFirst: bool, sep: Byte)
    requires Separator(sep) && EndsField(e, sep)
    ensures var r := ReadField(FieldText(f, [sep]) + e + rest, notFirst, sep, LF);
      r.field == Some(f) && r.term == e[|e| - 1] && r.rest == rest && r.notFirst
  {
    hide ReadField, EndsField;
    if Quoted(f, [sep]) {
      hide Quoted;
      QuotedFieldRead(f, e, rest, notFirst, sep);
    } else {
      forall i | 0 <= i < |f| ensures f[i] != sep && f[i] != LF && f[i] != CR && f[i] != QUOTE && f[i] < 127 {
        assert !ForcesQuotes(f, i, [sep]);
      }
      assert (f + e + rest)[0] == f[0];
      PlainFieldRead(f, e, rest, notFirst, sep);
    }
  }

  // ---- Reading a written row and a written table ----

  predicate NoNul(f: seq<Byte>) { forall i | 0 <= i < |f| :: f[i] != 0 }

  ghost predicate TextRow(row: Row) { row != [] && forall j | 0 <= j < |row| :: row[j].Some? && NoNul(row[j].value) }

  /** Tables of `nCol` columns of texts. */
  ghost predicate TextTable(t: seq<Row>, nCol: nat) {
    nCol >= 1 && forall i | 0 <= i < |t| :: TextRow(t[i]) && |t[i]| == nCol
  }

  /** A carriage return as column separator and in the row separator makes one more, empty field. */
  function Extra(rowSep: seq<Byte>, sep: Byte): (r: Row) { if sep == CR && rowSep == [CR, LF] then [Some([])] else [] }

  lemma {:induction false} RecordRead(row: Row, nullValue: seq<Byte>, rowSep: seq<Byte>, rest: seq<Byte>, notFirst: bool, sep: Byte)
    requires TextRow(row) && Separator(sep) && (rowSep == [LF] || rowSep == [CR, LF])
    ensures ReadRecord(TermsText(row, nullValue, [sep]) + rowSep + rest, notFirst, sep, LF)
      == Record(row + Extra(rowSep, sep), LF, rest, true)
    decreases |row|
  {
    var f := row[0].value;
    var extra := Extra(rowSep, sep);
    var end := rowSep + rest;
    TermsStart(row, nullValue, sep);
    TextTail(row);
    assert Separator(sep) && (sep != CR || rowSep == [LF] ==> EndsField(rowSep, sep)) && EndsField([sep], sep);
    Assoc(TermsText(row, nullValue, [sep]), rowSep, rest);
    if |row| == 1 && extra == [] {
      hide FieldText, ReadField, TermsText;
      Assoc(FieldText(f, [sep]), rowSep, rest);
      FieldRead(f, rowSep, rest, notFirst, sep);
      Empty(row);
    } else if |row| == 1 {
      hide FieldText, ReadField, TermsText;
      assert end == [sep] + ([LF] + rest);
      Assoc(FieldText(f, [sep]), [sep], [LF] + rest);
      FieldRead(f, [sep], [LF] + rest, notFirst, sep);
      EmptyRead(rest, sep);
    } else {
      hide *;
      var more := TermsText(row[1..], nullValue, [sep]) + rowSep + rest;
      Assoc(TermsText(row[1..], nullValue, [sep]), rowSep, rest);
      Assoc(FieldText(f, [sep]) + [sep], TermsText(row[1..], nullValue, [sep]), end);
      FieldRead(f, [sep], more, notFirst, sep);
      RecordRead(row[1..], nullValue, rowSep, rest, true, sep);
      RecordGoesOn(FieldText(f, [sep]) + [sep] + more, notFirst, sep, LF);
      Uncons(row);
      Assoc([row[0]], row[1..], extra);
    }
  }

  lemma {:induction false} TermsStart(row: Row, nullValue: seq<Byte>, sep: Byte)
    requires row != [] && row[0].Some?
    ensures TermsText(row, nullValue, [sep]) == if |row| == 1 then FieldText(row[0].value, [sep])
      else FieldText(row[0].value, [sep]) + [sep] + TermsText(row[1..], nullValue, [sep])
  {
    hide FieldText;
    if |row| == 1 {
      assert row[1..] == [];
    }
  }

  lemma TextTail(row: Row)
    requires TextRow(row)
    ensures row[0].Some? && row[0] == Some(row[0].value) && (|row| > 1 ==> TextRow(row[1..]))
  {}

  lemma {:induction false} RecordGoesOn(s: seq<Byte>, notFirst: bool, sep: int, row: int)
    requires sep != EOF && ReadField(s, notFirst, sep, row).term == sep
    ensures var r := ReadField(s, notFirst, sep, row);
      var more := ReadRecord(r.rest, r.notFirst, sep, row);
      ReadRecord(s, notFirst, sep, row) == Record([r.field] + more.fields, more.term, more.rest, more.notFirst)
  {
    hide ReadField;
  }

  lemma EmptyRead(rest: seq<Byte>, sep: Byte)
    requires Separator(sep)
    ensures ReadField([LF] + rest, true, sep, LF) == Read(Some([]), LF, rest, 1, true)
  {
    assert ([LF] + rest)[1..] == rest;
  }

  /** Reading what was written gives the same table and stops at the end of the file: for fields
      over the bytes 1 to 255, a one-byte ASCII column separator other than the quote and the line
      feed, and either row separator. */
  lemma {:induction false} TableRead(t: seq<Row>, nCol: nat, nullValue: seq<Byte>, rowSep: seq<Byte>, notFirst: bool, sep: Byte)
    requires Separator(sep) && (rowSep == [LF] || rowSep == [CR, LF]) && TextTable(t, nCol)
    ensures Rows(TableText(t, nullValue, [sep], rowSep), notFirst, nCol, sep, LF) == t
    decreases |t|
  {
    if t != [] {
      var rest := TableText(t[1..], nullValue, [sep], rowSep);
      var s := TableText(t, nullValue, [sep], rowSep);
      assert TextRow(t[0]) && |t[0]| == nCol && TextTable(t[1..], nCol);
      hide *;
      FittedText(t[0], Extra(rowSep, sep));
      TableStarts(t, nullValue, rowSep, sep);
      RecordRead(t[0], nullValue, rowSep, rest, notFirst, sep);
      TableRead(t[1..], nCol, nullValue, rowSep, true, sep);
      RowsStep(s, notFirst, nCol, sep, LF);
      Uncons(t);
      TailOfBoth(t[0], Extra(rowSep, sep));
    } else {
      RowsStep([], notFirst, nCol, sep, LF);
    }
  }

  lemma {:induction false} TableStarts(t: seq<Row>, nullValue: seq<Byte>, rowSep: seq<Byte>, sep: Byte)
    requires t != [] && t[0] != []
    ensures TableText(t, nullValue, [sep], rowSep)
      == TermsText(t[0], nullValue, [sep]) + rowSep + TableText(t[1..], nullValue, [sep], rowSep)
  {}

  lemma FittedText(row: Row, extra: Row)
    requires TextRow(row)
    ensures row != [] && row[0].Some? && Fitted(row + extra, |row|) == row
  {
    forall j | 0 <= j < |row| ensures Bound(row[j]) == row[j] {
      UntilNone(row[j].value, 0);
    }
  }

  /** The writer and the reader of the shell, one after the other. */
  method RoundTrip(t: seq<Row>, nCol: nat, nullValue: seq<Byte>, rowSep: seq<Byte>, sep: Byte) returns (rows: seq<Row>)
    requires Separator(sep) && (rowSep == [LF] || rowSep == [CR, LF]) && TextTable(t, nCol)
    ensures rows == t
  {
    var text := WriteTable(t, nullValue, [sep], rowSep);
    var p := new ImportCtx(text, sep, LF);
    rows := ImportRows(p, nCol);
    TableRead(t, nCol, nullValue, rowSep, false, sep);
  }

  // ---- The separators that do not work ----

  /** What the reader takes a separator byte for: a `char` that is signed. */
  function SignedChar(b: Byte): (c: int) { if b < 128 then b else b - 256 }

  /** Every table comes back. With a separator that reads as the end of the file the import does not end. */
  ghost predicate Faithful(rowSep: seq<Byte>, sep: Byte) {
    SignedChar(sep) != EOF &&
    forall t: seq<Row>, nCol: nat, nullValue: seq<Byte> | TextTable(t, nCol) ::
      Rows(TableText(t, nullValue, [sep], rowSep), false, nCol, SignedChar(sep), LF) == t
  }

  lemma {:induction false} QuotedTerm(s: seq<Byte>, z: seq<Byte>, pc: int, ppc: int, lines: nat, sep: int, row: int)
    ensures QuotedFrom(s, z, pc, ppc, lines, sep, row).term in {sep, row, EOF}
    decreases |s|
  {
    hide BackUp;
    var c, t, n := Next(s), After(s), lines + LineEnd(Next(s), row);
    if c == QUOTE && pc == QUOTE {
      QuotedTerm(t, z, 0, ppc, n, sep, row);
    } else if !Closes(c, pc, ppc, sep, row) && c != EOF {
      QuotedTerm(t, z + [c], c, pc, n, sep, row);
    }
  }

  lemma {:induction false} PlainTerm(s: seq<Byte>, z: seq<Byte>, sep: int, row: int)
    ensures PlainFrom(s, z, sep, row).term in {sep, row, EOF}
    decreases |s|
  {
    var c := Next(s);
    if c != EOF && c != sep && c != row {
      PlainTerm(After(s), z + [c], sep, row);
    }
  }

  lemma FieldTerm(s: seq<Byte>, notFirst: bool, sep: int, row: int)
    ensures ReadField(s, notFirst, sep, row).term in {sep, row, EOF}
  {
    if s != [] {
      ReadFieldCases(s, notFirst, sep, row);
      hide QuotedFrom, PlainFrom;
      QuotedTerm(s[1..], [], 0, 0, 0, sep, row);
      PlainTerm(s, [], sep, row);
      if StartsWithBom(s) && !notFirst && |s| > 3 {
        QuotedTerm(s[4..], [], 0, 0, 0, sep, row);
        PlainTerm(s[3..], [], sep, row);
      }
    }
  }

  /** With the line feed in both roles a record takes everything. */
  lemma {:induction false} OneRecord(s: seq<Byte>, notFirst: bool)
    ensures ReadRecord(s, notFirst, LF, LF).term == EOF
    decreases |s|
  {
    hide ReadField;
    var r := ReadField(s, notFirst, LF, LF);
    FieldTerm(s, notFirst, LF, LF);
    if r.term == LF {
      OneRecord(r.rest, r.notFirst);
    }
  }

  /** A quoted field that never sees a closing quote takes everything. */
  lemma {:induction false} NeverClosed(s: seq<Byte>, z: seq<Byte>, pc: int, ppc: int, lines: nat, sep: int, row: int)
    requires QUOTE !in s && Inside(pc, ppc)
    ensures QuotedFrom(s, z, pc, ppc, lines, sep, row).field == Some(z + s)
    decreases |s|
  {
    hide BackUp;
    if s == [] {
      assert z + s == z;
    } else {
      NeverClosed(s[1..], z + [s[0]], s[0], pc, lines + LineEnd(s[0], row), sep, row);
      assert z + s == (z + [s[0]]) + s[1..];
    }
  }

  lemma QuoteFails(rowSep: seq<Byte>)
    requires rowSep == [LF] || rowSep == [CR, LF]
    ensures !Faithful(rowSep, QUOTE)
  {
    var row: Row := [Some([]), Some([97])];
    var t := [row];
    var tail := [97] + rowSep;
    var s := [QUOTE, QUOTE, QUOTE] + tail;
    QuoteText(rowSep, row, t);
    ThreeQuotes(tail);
    hide ReadField;
    var rec := ReadRecord(s, false, QUOTE, LF);
    assert rec.fields[0] == Some([QUOTE] + tail);
    hide ReadRecord, TableText;
    assert Rows(s, false, 2, QUOTE, LF)[0][0] == Some(CText([QUOTE] + tail)) && t[0][0] == Some([]);
    assert TextTable(t, 2);
  }

  lemma ThreeQuotes(tail: seq<Byte>)
    requires QUOTE !in tail
    ensures ReadField([QUOTE, QUOTE, QUOTE] + tail, false, QUOTE, LF).field == Some([QUOTE] + tail)
  {
    hide QuotedFrom, ReadField, BackUp;
    var s := [QUOTE, QUOTE, QUOTE] + tail;
    var u, v := [QUOTE, QUOTE] + tail, [QUOTE] + tail;
    assert s[1..] == u && u[1..] == v && v[1..] == tail && [] + [QUOTE] == [QUOTE];
    ReadFieldCases(s, false, QUOTE, LF);
    QuotedStep(u, [], 0, 0, 0, QUOTE, LF);
    QuotedStep(v, [QUOTE], QUOTE, 0, 0, QUOTE, LF);
    NeverClosed(tail, [QUOTE], 0, 0, 0, QUOTE, LF);
  }

  lemma {:induction false} QuoteText(rowSep: seq<Byte>, row: Row, t: seq<Row>)
    requires row == [Some([]), Some([97])] && t == [row]
    ensures TableText(t, [], [QUOTE], rowSep) == [QUOTE, QUOTE, QUOTE] + ([97] + rowSep)
  {
    var q: seq<Byte> := [QUOTE];
    var a: seq<Byte> := [97];
    assert !Quoted(a, q) by { assert !ForcesQuotes(a, 0, q); }
    assert row[1..] == [Some(a)] && row[1..][1..] == [] && t[1..] == [];
    assert TermsText(row[1..], [], q) == a;
    assert FieldText([], q) == [QUOTE, QUOTE];
    assert TermsText(row, [], q) == [QUOTE, QUOTE] + q + a;
  }

  lemma LineFeedFails(rowSep: seq<Byte>)
    ensures !Faithful(rowSep, LF)
  {
    var row: Row := [Some([97])];
    var t := [row, row];
    OneRecord(TableText(t, [], [LF], rowSep), false);
    hide ReadRecord, TableText;
    assert |Rows(TableText(t, [], [LF], rowSep), false, 1, LF, LF)| <= 1;
    assert TextTable(t, 1);
  }

  /** A separator above 127 ends no field, so two fields are read as one. */
  lemma {:induction false} HighByteFails(rowSep: seq<Byte>, sep: Byte)
    requires 128 <= sep && (rowSep == [LF] || rowSep == [CR, LF])
    ensures !Faithful(rowSep, sep)
  {
    if SignedChar(sep) != EOF {
      var a: seq<Byte> := [97];
      var row: Row := [Some(a), Some(a)];
      var t := [row];
      var f := a + [sep] + a;
      var s := f + rowSep;
      HighText(rowSep, sep, row, t);
      assert s[0] == 97;
      ReadFieldCases(s, false, SignedChar(sep), LF);
      HighField(f, rowSep, SignedChar(sep));
      hide ReadField, PlainFrom;
      var rec := ReadRecord(s, false, SignedChar(sep), LF);
      assert rec.fields[0] == Some(f);
      hide ReadRecord, TableText;
      assert CText(f)[1..] == CText([sep] + a) && CText([sep] + a) != [] by {
        assert f[1..] == [sep] + a;
      }
      assert Rows(s, false, 2, SignedChar(sep), LF)[0][0] == Some(CText(f)) && t[0][0] == Some(a);
      assert |CText(f)| > 1;
      assert TextTable(t, 2);
    }
  }

  lemma {:induction false} HighField(f: seq<Byte>, rowSep: seq<Byte>, sep: int)
    requires sep < 0 && sep != EOF && (rowSep == [LF] || rowSep == [CR, LF])
    requires f != [] && f[|f| - 1] != CR && forall i | 0 <= i < |f| :: f[i] != LF
    ensures PlainFrom(f + rowSep, [], sep, LF).field == Some(f)
  {
    PlainBody(f, rowSep, [], sep, LF);
    Empty(f);
    hide PlainFrom;
    PlainStep(rowSep, f, sep, LF);
    if rowSep == [CR, LF] {
      assert rowSep[1..] == [LF];
      PlainStep([LF], f + [CR], sep, LF);
      LastOf(f, CR);
    }
  }

  lemma HighText(rowSep: seq<Byte>, sep: Byte, row: Row, t: seq<Row>)
    requires 128 <= sep && row == [Some([97]), Some([97])] && t == [row]
    ensures TableText(t, [], [sep], rowSep) == ([97] + [sep] + [97]) + rowSep
  {
    var a: seq<Byte> := [97];
    assert !Quoted(a, [sep]) by { assert !ForcesQuotes(a, 0, [sep]); }
    assert row[1..] == [Some(a)] && row[1..][1..] == [] && t[1..] == [];
    assert TermsText(row[1..], [], [sep]) == a;
    assert TermsText(row, [], [sep]) == a + [sep] + a;
  }

  /** The round trip holds for every table exactly if the separator is an ASCII byte and neither the quote
      nor the line feed. */
  lemma SeparatorsThatWork(rowSep: seq<Byte>, sep: Byte)
    requires sep != 0 && (rowSep == [LF] || rowSep == [CR, LF])
    ensures Faithful(rowSep, sep) <==> sep < 128 && sep != QUOTE && sep != LF
  {
    if sep >= 128 {
      HighByteFails(rowSep, sep);
    } else if sep == QUOTE {
      QuoteFails(rowSep);
    } else if sep == LF {
      LineFeedFails(rowSep);
    } else {
      forall t: seq<Row>, nCol: nat, nullValue: seq<Byte> | TextTable(t, nCol)
        ensures Rows(TableText(t, nullValue, [sep], rowSep), false, nCol, sep, LF) == t
      {
        TableRead(t, nCol, nullValue, rowSep, false, sep);
      }
    }
  }

  // ---- Separators of several bytes ----

  predicate HoldsSeparator(z: seq<Byte>, colSep: seq<Byte>) { exists i | 0 <= i <= |z| :: colSep <= z[i..] }

  predicate NeedsQuotes(colSep: seq<Byte>) { exists k | 0 <= k < |colSep| :: NeedCsvQuote(colSep[k]) }

  /** The writer quotes every field that holds the separator exactly if the separator is one byte
      long or has a byte that is always quoted: it looks for longer ones only at the start of a field. */
  lemma {:induction false} SeparatorIsQuoted(colSep: seq<Byte>)
    requires colSep != []
    ensures (forall z: seq<Byte> | HoldsSeparator(z, colSep) :: Quoted(z, colSep)) <==> |colSep| == 1 || NeedsQuotes(colSep)
  {
    if |colSep| == 1 || NeedsQuotes(colSep) {
      forall z: seq<Byte> | HoldsSeparator(z, colSep) ensures Quoted(z, colSep) {
        var i :| 0 <= i <= |z| && colSep <= z[i..];
        var k := if |colSep| == 1 then 0 else var k :| 0 <= k < |colSep| && NeedCsvQuote(colSep[k]); k;
        assert z[i + k] == colSep[k];
        assert ForcesQuotes(z, i + k, colSep);
      }
    } else {
      var x := Another(colSep[0]);
      var z := [x] + colSep + [x];
      BareAround(x, colSep);
      assert z[1..] == colSep + [x];
      assert colSep <= z[1..];
    }
  }

  /** A byte that stands bare and is not the one given. */
  function Another(b: Byte): (x: Byte)
    ensures x != b && !NeedCsvQuote(x)
  {
    if b == 97 then 98 else 97
  }

  lemma BareAround(x: Byte, colSep: seq<Byte>)
    requires |colSep| >= 2 && !NeedsQuotes(colSep) && x != colSep[0] && !NeedCsvQuote(x)
    ensures !Quoted([x], colSep) && !Quoted([x] + colSep + [x], colSep)
  {
    var z := [x] + colSep + [x];
    forall i | 0 <= i < |z| ensures !ForcesQuotes(z, i, colSep) {
      assert z[i] == if 0 < i <= |colSep| then colSep[i - 1] else x;
      assert z[0] != colSep[0];
    }
    assert [x][0] == x;
  }

  /** With any longer separator none of whose bytes is quoted, two different rows are written alike. */
  lemma LongSeparatorsAreAmbiguous(colSep: seq<Byte>, nullValue: seq<Byte>, rowSep: seq<Byte>) returns (a: Row, b: Row)
    requires |colSep| >= 2 && !NeedsQuotes(colSep)
    ensures TextRow(a) && TextRow(b) && a != b
    ensures RowText(a, nullValue, colSep, rowSep) == RowText(b, nullValue, colSep, rowSep)
  {
    var x := Another(colSep[0]);
    var z := [x] + colSep + [x];
    BareAround(x, colSep);
    a, b := [Some(z)], [Some([x]), Some([x])];
    assert NoNul(z) by {
      assert forall i | 0 <= i < |z| :: z[i] == if 0 < i <= |colSep| then colSep[i - 1] else x;
    }
    assert a[1..] == [] && b[1..] == [Some([x])] && b[1..][1..] == [];
    assert TermsText(a, nullValue, colSep) == z;
    assert TermsText(b[1..], nullValue, colSep) == [x];
    assert TermsText(b, nullValue, colSep) == [x] + colSep + [x];
  }
}
