/** What .import makes of every file in the format of RFC 4180, section 2, whoever wrote it. */
module CsvRfc4180 {
  import opened Seqs
  import opened Wrappers
  import opened Csv
  import opened CsvRoundTrip

  // ---- The format ----

  /** A field, and whether it is enclosed in quotes. */
  datatype Cell = Cell(text: seq<Byte>, quoted: bool)

  /** A record and its line end, which only the last record may lack. */
  datatype Line = Line(cells: seq<Cell>, end: seq<Byte>)

  predicate Comma(sep: Byte) { Separator(sep) && sep != CR }

  /** Bare fields hold no quotes, separators or line ends. */
  predicate ValidCell(c: Cell, sep: Byte) {
    && NoNul(c.text)
    && (c.quoted || forall i | 0 <= i < |c.text| :: c.text[i] != sep && c.text[i] != LF && c.text[i] != CR && c.text[i] != QUOTE)
  }

  predicate ValidLine(line: Line, sep: Byte, nCol: nat) {
    && nCol >= 1 && |line.cells| == nCol && (line.end == [] || line.end == [LF] || line.end == [CR, LF])
    && forall i | 0 <= i < nCol :: ValidCell(line.cells[i], sep)
  }

  predicate ValidFile(file: seq<Line>, sep: Byte, nCol: nat) {
    && (forall i | 0 <= i < |file| :: ValidLine(file[i], sep, nCol))
    && (forall i | 0 <= i < |file| - 1 :: file[i].end != [])
  }

  function CellText(c: Cell): (r: seq<Byte>) { if c.quoted then [QUOTE] + Doubled(c.text) + [QUOTE] else c.text }

  function CellsText(cells: seq<Cell>, sep: Byte): (r: seq<Byte>) {
    if cells == [] then []
    else CellText(cells[0]) + (if |cells| == 1 then [] else [sep]) + CellsText(cells[1..], sep)
  }

  function FileText(file: seq<Line>, sep: Byte): (r: seq<Byte>) {
    if file == [] then [] else CellsText(file[0].cells, sep) + file[0].end + FileText(file[1..], sep)
  }

  // ---- What is read ----

  /** The file's own table. */
  function CellsRow(cells: seq<Cell>): (row: Row) { seq(|cells|, i requires 0 <= i < |cells| => Some(cells[i].text)) }

  function Table(file: seq<Line>): (t: seq<Row>) {
    if file == [] then [] else [CellsRow(file[0].cells)] + Table(file[1..])
  }

  /** A bare empty field at the very end of the file, where no line end follows. */
  predicate Lost(line: Line) {
    line.end == [] && line.cells != [] && line.cells[|line.cells| - 1] == Cell([], false)
  }

  /** A record as it is read: a field lost at the end of the file is NULL. */
  function LineRow(line: Line): (row: Row) {
    var row := CellsRow(line.cells);
    if Lost(line) then row[|row| - 1 := None] else row
  }

  /** The table as it is read: a record that is nothing but a lost field is no record. */
  function ReadTable(file: seq<Line>): (t: seq<Row>) {
    if file == [] then []
    else (if Lost(file[0]) && |file[0].cells| == 1 then [] else [LineRow(file[0])]) + ReadTable(file[1..])
  }

  // ---- Reading one field ----

  /** A byte order mark is only looked for in front of everything. */
  predicate NoBom(s: seq<Byte>, notFirst: bool) { notFirst || !StartsWithBom(s) }

  lemma CellRead(c: Cell, e: seq<Byte>, rest: seq<Byte>, notFirst: bool, sep: Byte)
    requires Comma(sep) && ValidCell(c, sep) && EndsField(e, sep) && (c.quoted || NoBom(CellText(c) + e + rest, notFirst))
    ensures var r := ReadField(CellText(c) + e + rest, notFirst, sep, LF);
      r.field == Some(c.text) && r.term == e[|e| - 1] && r.rest == rest && r.notFirst
  {
    hide ReadField, Doubled, EndsField, StartsWithBom;
    if c.quoted {
      QuotedFieldRead(c.text, e, rest, notFirst, sep);
    } else {
      PlainFieldRead(c.text, e, rest, notFirst, sep);
    }
  }

  lemma {:induction false} QuotedAtEof(f: seq<Byte>, notFirst: bool, sep: Byte)
    requires Separator(sep)
    ensures var r := ReadField([QUOTE] + Doubled(f) + [QUOTE], notFirst, sep, LF);
      r.field == Some(f) && r.term == EOF && r.rest == [] && r.notFirst
  {
    hide ReadField, QuotedFrom, Doubled, BackUp;
    var s := [QUOTE] + Doubled(f) + [QUOTE];
    assert s[1..] == Doubled(f) + [QUOTE];
    ReadFieldCases(s, notFirst, sep, LF);
    var pc, ppc, n := QuotedBody(f, [QUOTE], [], 0, 0, 0, sep, LF);
    Empty(f);
    QuotedStep([QUOTE], f, pc, ppc, n, sep, LF);
    assert [QUOTE][1..] == [];
    QuotedStep([], f + [QUOTE], QUOTE, pc, n + LineEnd(QUOTE, LF), sep, LF);
    LastOf(f, QUOTE);
    DropsQuote(f);
  }

  lemma DropsQuote(f: seq<Byte>)
    ensures BackUp(f + [QUOTE]) == f
  {
    LastOf(f, QUOTE);
  }

  /** The last field of a file without a line end. */
  lemma CellAtEof(c: Cell, notFirst: bool, sep: Byte)
    requires Comma(sep) && ValidCell(c, sep) && (c.quoted || NoBom(CellText(c), notFirst))
    ensures var r := ReadField(CellText(c), notFirst, sep, LF);
      && r.field == (if c == Cell([], false) then None else Some(c.text)) && r.term == EOF && r.rest == []
      && r.notFirst == (notFirst || c != Cell([], false))
  {
    if c.quoted {
      hide ReadField, Doubled;
      QuotedAtEof(c.text, notFirst, sep);
    } else if c.text == [] {
      ReadNothing(notFirst, sep, LF);
    } else {
      ReadFieldCases(c.text, notFirst, sep, LF);
      hide ReadField, PlainFrom;
      PlainBody(c.text, [], [], sep, LF);
      Empty(c.text);
      PlainStep([], c.text, sep, LF);
    }
  }

  // ---- Reading a record ----

  lemma {:induction false} CellsStart(cells: seq<Cell>, sep: Byte, e: seq<Byte>, rest: seq<Byte>)
    requires cells != []
    ensures CellsText(cells, sep) + e + rest ==
      if |cells| == 1 then CellText(cells[0]) + e + rest
      else CellText(cells[0]) + [sep] + (CellsText(cells[1..], sep) + e + rest)
  {
    hide CellText;
    if |cells| == 1 {
      assert cells[1..] == [];
      Empty(CellText(cells[0]));
    } else {
      Assoc(CellText(cells[0]) + [sep], CellsText(cells[1..], sep), e);
      Assoc(CellText(cells[0]) + [sep], CellsText(cells[1..], sep) + e, rest);
    }
  }

  lemma {:induction false} LineRowStep(line: Line)
    requires line.cells != []
    ensures LineRow(line) ==
      if |line.cells| == 1 then [if Lost(line) then None else Some(line.cells[0].text)]
      else [Some(line.cells[0].text)] + LineRow(Line(line.cells[1..], line.end))
  {}

  predicate EndsLine(e: seq<Byte>, rest: seq<Byte>) { e == [LF] || e == [CR, LF] || (e == [] && rest == []) }

  lemma {:induction false} CellsRead(cells: seq<Cell>, e: seq<Byte>, rest: seq<Byte>, notFirst: bool, sep: Byte)
    requires Comma(sep) && cells != [] && EndsLine(e, rest) && forall i | 0 <= i < |cells| :: ValidCell(cells[i], sep)
    requires cells[0].quoted || NoBom(CellsText(cells, sep) + e + rest, notFirst)
    ensures var line := Line(cells, e);
      ReadRecord(CellsText(cells, sep) + e + rest, notFirst, sep, LF)
        == Record(LineRow(line), if e == [] then EOF else LF, rest, notFirst || !(Lost(line) && |cells| == 1))
    decreases |cells|
  {
    var c := cells[0];
    CellsStart(cells, sep, e, rest);
    LineRowStep(Line(cells, e));
    if |cells| > 1 {
      var more := CellsText(cells[1..], sep) + e + rest;
      assert EndsField([sep], sep) && NoBom(more, true) && sep != EOF && sep != LF;
      assert Lost(Line(cells, e)) == Lost(Line(cells[1..], e));
      hide *;
      assert forall i | 0 <= i < |cells[1..]| :: cells[1..][i] == cells[i + 1];
      CellRead(c, [sep], more, notFirst, sep);
      CellsRead(cells[1..], e, rest, true, sep);
      RecordGoesOn(CellText(c) + [sep] + more, notFirst, sep, LF);
    } else {
      hide ReadField, CellsText, CellText, LineRow, ValidCell, StartsWithBom;
      LastCellRead(c, e, rest, notFirst, sep);
      RecordStops(CellText(c) + e + rest, notFirst, sep, LF);
    }
  }

  lemma LastCellRead(c: Cell, e: seq<Byte>, rest: seq<Byte>, notFirst: bool, sep: Byte)
    requires Comma(sep) && ValidCell(c, sep) && EndsLine(e, rest) && (c.quoted || NoBom(CellText(c) + e + rest, notFirst))
    ensures var (r, lost) := (ReadField(CellText(c) + e + rest, notFirst, sep, LF), e == [] && c == Cell([], false));
      && r.field == (if lost then None else Some(c.text)) && r.term == (if e == [] then EOF else LF)
      && r.rest == rest && r.notFirst == (notFirst || !lost)
  {
    hide ReadField, CellText, ValidCell, StartsWithBom;
    if e == [] {
      Empty(CellText(c));
      CellAtEof(c, notFirst, sep);
    } else {
      CellRead(c, e, rest, notFirst, sep);
    }
  }

  lemma RecordStops(s: seq<Byte>, notFirst: bool, sep: int, row: int)
    requires sep != EOF && ReadField(s, notFirst, sep, row).term != sep
    ensures var r := ReadField(s, notFirst, sep, row);
      ReadRecord(s, notFirst, sep, row) == Record([r.field], r.term, r.rest, r.notFirst)
  {
    hide ReadField;
  }

  // ---- Reading a file ----

  lemma FittedLine(line: Line, sep: Byte, nCol: nat)
    requires ValidLine(line, sep, nCol)
    ensures Fitted(LineRow(line), nCol) == LineRow(line)
    ensures LineRow(line)[0].None? <==> Lost(line) && nCol == 1
  {
    forall i | 0 <= i < nCol ensures Bound(LineRow(line)[i]) == LineRow(line)[i] {
      assert ValidCell(line.cells[i], sep);
      UntilNone(line.cells[i].text, 0);
    }
  }

  lemma {:induction false} FileRead(file: seq<Line>, notFirst: bool, sep: Byte, nCol: nat)
    requires Comma(sep) && ValidFile(file, sep, nCol) && nCol >= 1
    requires file == [] || file[0].cells[0].quoted || NoBom(FileText(file, sep), notFirst)
    ensures Rows(FileText(file, sep), notFirst, nCol, sep, LF) == ReadTable(file)
    decreases |file|
  {
    if file == [] {
      ReadNothing(notFirst, sep, LF);
    } else {
      var line, more := file[0], file[1..];
      var rest := FileText(more, sep);
      assert ValidLine(line, sep, nCol) && ValidFile(more, sep, nCol);
      assert line.end == [] ==> more == [];
      hide ReadRecord, CellsText, ValidCell, Fitted, LineRow, StartsWithBom;
      CellsRead(line.cells, line.end, rest, notFirst, sep);
      FittedLine(line, sep, nCol);
      RowsStep(FileText(file, sep), notFirst, nCol, sep, LF);
      if line.end != [] {
        hide Rows;
        FileRead(more, true, sep, nCol);
      }
    }
  }

  // ---- The byte order mark ----

  /** The file starts with the bytes of a byte order mark, as those of a bare field. */
  predicate StartsBare(file: seq<Line>, sep: Byte) {
    file != [] && file[0].cells != [] && !file[0].cells[0].quoted && StartsWithBom(FileText(file, sep))
  }

  /** The file without them. */
  function Stripped(file: seq<Line>, sep: Byte): (r: seq<Line>) {
    if StartsBare(file, sep) && |file[0].cells[0].text| >= 3 then
      var c := file[0].cells[0];
      [Line([c.(text := c.text[3..])] + file[0].cells[1..], file[0].end)] + file[1..]
    else file
  }

  /** What follows the first field. */
  function Behind(line: Line, rest: seq<Byte>, sep: Byte): (r: seq<Byte>)
    requires line.cells != []
  {
    if |line.cells| == 1 then line.end + rest else [sep] + (CellsText(line.cells[1..], sep) + line.end + rest)
  }

  lemma {:induction false} BareFront(file: seq<Line>, sep: Byte)
    requires file != [] && file[0].cells != [] && !file[0].cells[0].quoted
    ensures FileText(file, sep) == file[0].cells[0].text + Behind(file[0], FileText(file[1..], sep), sep)
  {
    var line, rest := file[0], FileText(file[1..], sep);
    var f := line.cells[0].text;
    CellsStart(line.cells, sep, line.end, rest);
    hide CellsText;
    Assoc(f, line.end, rest);
    Assoc(f, [sep], CellsText(line.cells[1..], sep) + line.end + rest);
  }

  lemma {:induction false} FileStarts(file: seq<Line>, sep: Byte, nCol: nat)
    requires Comma(sep) && ValidFile(file, sep, nCol) && nCol >= 1 && file != [] && !file[0].cells[0].quoted
    ensures var (s, f) := (FileText(file, sep), file[0].cells[0].text);
      |s| >= |f| && s[..|f|] == f && (|s| > |f| ==> s[|f|] < 128)
  {
    var line := file[0];
    assert ValidLine(line, sep, nCol);
    assert line.end == [] ==> file[1..] == [];
    BareFront(file, sep);
  }

  lemma {:induction false} BomIsInCell(file: seq<Line>, sep: Byte, nCol: nat)
    requires Comma(sep) && ValidFile(file, sep, nCol) && nCol >= 1 && StartsBare(file, sep)
    ensures var f := file[0].cells[0].text; |f| >= 3 && StartsWithBom(f)
  {
    FileStarts(file, sep, nCol);
    hide FileText;
    var (s, f) := (FileText(file, sep), file[0].cells[0].text);
    assert forall k | 0 <= k < |f| :: s[k] == f[k];
  }

  lemma {:induction false} StrippedText(file: seq<Line>, sep: Byte)
    requires StartsBare(file, sep) && |file[0].cells[0].text| >= 3
    ensures FileText(Stripped(file, sep), sep) == FileText(file, sep)[3..]
  {
    var file' := Stripped(file, sep);
    var f, behind := file[0].cells[0].text, Behind(file[0], FileText(file[1..], sep), sep);
    StrippedFile(file, sep);
    BareFront(file, sep);
    BareFront(file', sep);
    assert Behind(file'[0], FileText(file'[1..], sep), sep) == behind;
    hide *;
    BehindFront(f, behind);
  }

  lemma BehindFront(f: seq<Byte>, behind: seq<Byte>)
    requires |f| >= 3
    ensures (f + behind)[3..] == f[3..] + behind
  {}

  lemma {:induction false} StrippedValid(file: seq<Line>, sep: Byte, nCol: nat)
    requires ValidFile(file, sep, nCol) && StartsBare(file, sep) && |file[0].cells[0].text| >= 3
    ensures ValidFile(Stripped(file, sep), sep, nCol)
  {
    var file' := Stripped(file, sep);
    StrippedFile(file, sep);
    hide FileText, Stripped, StartsWithBom, ValidLine;
    forall i | 0 <= i < |file'| ensures ValidLine(file'[i], sep, nCol) {
      assert ValidLine(file[i], sep, nCol);
      if i > 0 {
        assert file'[i] == file'[1..][i - 1] && file[i] == file[1..][i - 1];
      } else {
        StrippedLine(file[0], file'[0], sep, nCol);
      }
    }
    forall i | 0 <= i < |file'| - 1 ensures file'[i].end != [] {
      assert i > 0 ==> file'[i] == file'[1..][i - 1] && file[i] == file[1..][i - 1];
    }
  }

  /** What stays. */
  lemma StrippedFile(file: seq<Line>, sep: Byte)
    requires StartsBare(file, sep) && |file[0].cells[0].text| >= 3
    ensures var file' := Stripped(file, sep);
      && |file'| == |file| && file'[1..] == file[1..] && file'[0].end == file[0].end
      && file'[0].cells == [Cell(file[0].cells[0].text[3..], false)] + file[0].cells[1..]
      && file'[0].cells[1..] == file[0].cells[1..] && |file'[0].cells| == |file[0].cells|
  {
    hide FileText, StartsWithBom;
  }

  lemma StrippedLine(line: Line, line': Line, sep: Byte, nCol: nat)
    requires ValidLine(line, sep, nCol) && line'.end == line.end && |line.cells[0].text| >= 3 && !line.cells[0].quoted
    requires line'.cells == [Cell(line.cells[0].text[3..], false)] + line.cells[1..]
    ensures ValidLine(line', sep, nCol)
  {
    hide ValidCell;
    forall i | 0 <= i < nCol ensures ValidCell(line'.cells[i], sep) {
      assert ValidCell(line.cells[i], sep);
      if i == 0 {
        StillValid(line.cells[0], sep);
      } else {
        assert line'.cells[i] == line.cells[i];
      }
    }
  }

  lemma StillValid(c: Cell, sep: Byte)
    requires ValidCell(c, sep) && |c.text| >= 3
    ensures ValidCell(c.(text := c.text[3..]), sep)
  {}

  lemma BomRows(s: seq<Byte>, sep: Byte, nCol: nat)
    requires Comma(sep) && StartsWithBom(s)
    ensures Rows(s, false, nCol, sep, LF) == Rows(s[3..], true, nCol, sep, LF)
  {
    ReadFieldCases(s, false, sep, LF);
    hide ReadField, Fitted;
    assert ReadRecord(s, false, sep, LF) == ReadRecord(s[3..], true, sep, LF);
    hide ReadRecord;
    RowsStep(s, false, nCol, sep, LF);
    RowsStep(s[3..], true, nCol, sep, LF);
  }

  /** Every file in the format is read, whatever it quotes, with either line end, and with or without a
      last one: as its table, but for a bare mark at its start and a bare empty field at its end. */
  lemma {:induction false} FormatIsRead(file: seq<Line>, sep: Byte, nCol: nat)
    requires Comma(sep) && ValidFile(file, sep, nCol) && nCol >= 1
    ensures Rows(FileText(file, sep), false, nCol, sep, LF) == ReadTable(Stripped(file, sep))
  {
    if StartsBare(file, sep) {
      BomIsInCell(file, sep, nCol);
      StrippedText(file, sep);
      StrippedValid(file, sep, nCol);
      BomRows(FileText(file, sep), sep, nCol);
      FileRead(Stripped(file, sep), true, sep, nCol);
    } else {
      assert file != [] ==> ValidLine(file[0], sep, nCol);
      FileRead(file, false, sep, nCol);
    }
  }

  // ---- Which files are read as they are ----

  predicate EndsLost(file: seq<Line>) { file != [] && Lost(file[|file| - 1]) }

  lemma {:induction false} LostRows(file: seq<Line>, sep: Byte, nCol: nat)
    requires ValidFile(file, sep, nCol) && nCol >= 1
    ensures ReadTable(file) == Table(file) <==> !EndsLost(file)
    decreases |file|
  {
    if file != [] {
      var line, more := file[0], file[1..];
      assert ValidLine(line, sep, nCol);
      assert more != [] ==> more[|more| - 1] == file[|file| - 1] && !Lost(line);
      LostRows(more, sep, nCol);
      LineRowIs(line);
      hide LineRow, CellsRow;
      if Lost(line) {
        assert more == [] && ReadTable(more) == [] && Table(more) == [];
        assert Table(file) == [CellsRow(line.cells)];
      } else {
        RowsAre(LineRow(line), ReadTable(more), Table(more));
      }
    }
  }

  lemma LineRowIs(line: Line)
    requires line.cells != []
    ensures LineRow(line) == CellsRow(line.cells) <==> !Lost(line)
  {
    if Lost(line) {
      var k := |line.cells| - 1;
      assert LineRow(line)[k] == None && CellsRow(line.cells)[k] == Some([]);
    }
  }

  lemma RowsAre(row: Row, s: seq<Row>, t: seq<Row>)
    ensures [row] + s == [row] + t <==> s == t
  {
    FirstOf(row, s);
    FirstOf(row, t);
  }

  /** A file is read as its table exactly if it neither starts with a bare mark nor ends with a bare
      empty field that no line end follows. */
  lemma {:induction false} FormatIsReadExactly(file: seq<Line>, sep: Byte, nCol: nat)
    requires Comma(sep) && ValidFile(file, sep, nCol) && nCol >= 1
    ensures Rows(FileText(file, sep), false, nCol, sep, LF) == Table(file) <==> !StartsBare(file, sep) && !EndsLost(file)
  {
    FormatIsRead(file, sep, nCol);
    if StartsBare(file, sep) {
      BomIsInCell(file, sep, nCol);
      hide Rows, FileText, StartsWithBom;
      StrippedDiffers(file, sep, nCol);
    } else {
      LostRows(file, sep, nCol);
    }
  }

  lemma {:induction false} StrippedDiffers(file: seq<Line>, sep: Byte, nCol: nat)
    requires ValidFile(file, sep, nCol) && nCol >= 1 && StartsBare(file, sep) && |file[0].cells[0].text| >= 3
    ensures ReadTable(Stripped(file, sep)) != Table(file)
  {
    hide FileText, StartsWithBom;
    var file' := Stripped(file, sep);
    var c := file[0].cells[0];
    assert file'[0].cells[0].text == c.text[3..];
    assert Table(file)[0][0] == Some(c.text);
    if !(Lost(file'[0]) && |file'[0].cells| == 1) {
      assert ReadTable(file')[0] == LineRow(file'[0]);
      assert LineRow(file'[0])[0] != Some(c.text);
    } else {
      assert ValidLine(file[0], sep, nCol);
      assert |file| == 1 && file'[1..] == [];
    }
  }

  /** The import loop of the code on such a file. */
  method ImportFile(file: seq<Line>, sep: Byte, nCol: nat) returns (rows: seq<Row>)
    requires Comma(sep) && ValidFile(file, sep, nCol) && nCol >= 1
    ensures rows == ReadTable(Stripped(file, sep))
    ensures rows == Table(file) <==> !StartsBare(file, sep) && !EndsLost(file)
  {
    var p := new ImportCtx(FileText(file, sep), sep, LF);
    rows := ImportRows(p, nCol);
    FormatIsRead(file, sep, nCol);
    FormatIsReadExactly(file, sep, nCol);
  }
}
