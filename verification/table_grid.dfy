/** The grid in which .tables prints its names. */
module TableGrid {
  import opened Modular

  /** The longest name. */
  function MaxLen(names: seq<string>): (m: nat)
    ensures forall k | 0 <= k < |names| :: |names[k]| <= m
  {
    if names == [] then 0
    else
      var m := MaxLen(names[..|names| - 1]);
      if |names[|names| - 1]| > m then |names[|names| - 1]| else m
  }

  function Spaces(n: nat): (s: string)
    ensures |s| == n
  {
    seq(n, _ => ' ')
  }

  /** `%-*s`. */
  function Padded(name: string, width: nat): (s: string)
    ensures |s| == if |name| < width then width else |name|
    ensures name <= s
  {
    if |name| < width then name + Spaces(width - |name|) else name
  }

  /** The name in row `i` and column `c` of a grid of `rows` rows filled column by column. */
  function Place(rows: nat, i: nat, c: nat): (r: nat) { c * rows + i }

  /** The text of a line with these names. */
  function LineText(names: seq<string>, cells: seq<nat>, width: nat): (s: string)
    requires forall c | 0 <= c < |cells| :: cells[c] < |names| && |names[cells[c]]| <= width
  {
    if cells == [] then []
    else
      var some := cells[..|cells| - 1];
      LineText(names, some, width) + (if some == [] then [] else "  ") + Padded(names[cells[|cells| - 1]], width)
  }

  lemma {:induction false} LineLength(names: seq<string>, cells: seq<nat>, width: nat)
    requires forall c | 0 <= c < |cells| :: cells[c] < |names| && |names[cells[c]]| <= width
    ensures |LineText(names, cells, width)| + (if cells == [] then 0 else 2) == Times(|cells|, width + 2)
  {
    OneMore(|cells|, width + 2);
    hide Times;
    if cells != [] {
      var some := cells[..|cells| - 1];
      LineLength(names, some, width);
      LineGrows(names, cells, width);
      hide *;
    }
  }

  function Times(k: nat, w: nat): (r: nat) { k * w }

  lemma OneMore(k: nat, w: nat)
    ensures Times(k, w) == if k == 0 then 0 else Times(k - 1, w) + w
  {}

  lemma {:induction false} LineGrows(names: seq<string>, cells: seq<nat>, width: nat)
    requires cells != [] && forall c | 0 <= c < |cells| :: cells[c] < |names| && |names[cells[c]]| <= width
    ensures var some := cells[..|cells| - 1];
      |LineText(names, cells, width)| == |LineText(names, some, width)| + (if some == [] then 0 else 2) + width
  {}

  /** Line `i` holds row `i` of the grid. */
  ghost predicate RowOf(cells: seq<nat>, n: nat, rows: nat, i: nat) {
    && (forall c | 0 <= c < |cells| :: cells[c] == Place(rows, i, c) < n)
    && (forall c: nat | Place(rows, i, c) < n :: c < |cells|)
  }

  lemma PlaceGrows(rows: nat, i: nat, c: nat, d: nat)
    requires c <= d
    ensures Place(rows, i, c) <= Place(rows, i, d)
  {}

  lemma PlaceOf(rows: nat, k: nat)
    requires rows > 0
    ensures k % rows < rows && Place(rows, k % rows, k / rows) == k
  {}

  /** No name has two places. */
  lemma OnePlace(rows: nat, i: nat, c: nat, i': nat, c': nat)
    requires i < rows && i' < rows && Place(rows, i, c) == Place(rows, i', c')
    ensures i == i' && c == c'
  {
    Remainder(Place(rows, i, c), rows, c, i);
    Remainder(Place(rows, i', c'), rows, c', i');
  }

  lemma NextPlace(rows: nat, i: nat, c: nat)
    ensures Place(rows, i, c + 1) == Place(rows, i, c) + rows && Place(rows, i, 0) == i
    ensures Place(rows, i, c) < rows ==> c == 0 || rows == 0
  {
    assert c > 0 ==> c * rows >= rows;
  }

  /** A line is no longer than the number of columns allows. */
  lemma FewCells(k: nat, rows: nat, i: nat, n: nat, columns: nat)
    requires rows > 0 && n <= rows * columns && (k > 0 ==> Place(rows, i, k - 1) < n)
    ensures k <= columns
  {
    assert k > columns ==> (k - 1) * rows >= columns * rows;
  }

  /** Enough rows for all the names. */
  lemma EnoughRows(n: nat, columns: nat)
    requires columns > 0 && n > 0
    ensures var rows := (n + columns - 1) / columns; rows > 0 && n <= rows * columns
  {}

  method PrintLine(names: seq<string>, maxlen: nat, nPrintRow: nat, i: nat) returns (line: string, ghost cells: seq<nat>)
    requires i < nPrintRow && forall k | 0 <= k < |names| :: |names[k]| <= maxlen
    ensures RowOf(cells, |names|, nPrintRow, i)
    ensures line == LineText(names, cells, maxlen)
  {
    hide Place, Padded;
    line, cells := "", [];
    var j := i;
    NextPlace(nPrintRow, i, 0);
    while j < |names|
      invariant j == Place(nPrintRow, i, |cells|)
      invariant forall c | 0 <= c < |cells| :: cells[c] == Place(nPrintRow, i, c) < |names|
      invariant line == LineText(names, cells, maxlen)
      decreases |names| - j
    {
      NextPlace(nPrintRow, i, |cells|);
      assert j < nPrintRow <==> cells == [];
      var zSp := if j < nPrintRow then "" else "  ";
      line := line + zSp + Padded(names[j], maxlen);
      assert (cells + [j])[..|cells|] == cells;
      cells := cells + [j];
      j := j + nPrintRow;
    }
    forall c: nat | Place(nPrintRow, i, c) < |names| ensures c < |cells| {
      if c >= |cells| {
        PlaceGrows(nPrintRow, i, |cells|, c);
      }
    }
  }

  method Longest(names: seq<string>) returns (maxlen: nat)
    ensures maxlen == MaxLen(names)
  {
    maxlen := 0;
    for i := 0 to |names|
      invariant maxlen == MaxLen(names[..i])
    {
      assert names[..i + 1][..i] == names[..i];
      if |names[i]| > maxlen {
        maxlen := |names[i]|;
      }
    }
    assert names[..|names|] == names;
  }

  /** Every name stands in its row and column. */
  ghost predicate Filled(grid: seq<seq<nat>>, n: nat) {
    forall k | 0 <= k < n :: |grid| > 0 && k / |grid| < |grid[k % |grid|]| && grid[k % |grid|][k / |grid|] == k
  }

  lemma RowsFill(grid: seq<seq<nat>>, n: nat)
    requires (n > 0 ==> grid != []) && forall i | 0 <= i < |grid| :: RowOf(grid[i], n, |grid|, i)
    ensures Filled(grid, n)
  {
    forall k | 0 <= k < n ensures k / |grid| < |grid[k % |grid|]| && grid[k % |grid|][k / |grid|] == k {
      hide Place, RowOf;
      PlaceOf(|grid|, k);
      CellOf(grid[k % |grid|], n, |grid|, k % |grid|, k / |grid|);
    }
  }

  lemma CellOf(cells: seq<nat>, n: nat, rows: nat, i: nat, c: nat)
    requires RowOf(cells, n, rows, i) && Place(rows, i, c) < n
    ensures c < |cells| && cells[c] == Place(rows, i, c)
  {
    hide Place;
  }

  /** How many names and gaps fit into 80 bytes; one at least. */
  function Columns(maxlen: nat): (cols: nat)
    ensures cols > 0
  {
    if maxlen + 2 <= 80 then 80 / (maxlen + 2) else 1
  }

  /** So many columns of the longest name and two blanks fit into 80 bytes, and no more; one is always made. */
  lemma ColumnsFit(maxlen: nat, cols: nat)
    ensures cols <= Columns(maxlen) <==> cols <= 1 || cols * (maxlen + 2) <= 80
  {
    var w := maxlen + 2;
    assert 80 == (80 / w) * w + 80 % w;
    if cols <= 80 / w {
      TimesGrows(cols, 80 / w, w);
    } else {
      TimesGrows(80 / w + 1, cols, w);
    }
  }

  /** The longest name is one of them. */
  lemma {:induction false} LongestIsName(names: seq<string>)
    requires names != []
    ensures exists k | 0 <= k < |names| :: |names[k]| == MaxLen(names)
  {
    var n := |names| - 1;
    assert names[..0] == [] && MaxLen([]) == 0;
    if MaxLen(names) != |names[n]| {
      LongestIsName(names[..n]);
      var k :| 0 <= k < n && |names[..n][k]| == MaxLen(names[..n]);
      assert |names[k]| == MaxLen(names);
    }
  }

  /** The name stands in the line at `at`, with blanks behind it up to `end`. */
  predicate Stands(s: string, at: nat, end: nat, name: string) {
    at + |name| <= end <= |s| && forall k | at <= k < end :: s[k] == if k < at + |name| then name[k - at] else ' '
  }

  /** Every cell of a line stands at a multiple of the width and two, with blanks up to the next. */
  lemma {:induction false} CellInLine(names: seq<string>, cells: seq<nat>, width: nat, c: nat)
    requires c < |cells| && forall d | 0 <= d < |cells| :: cells[d] < |names| && |names[cells[d]]| <= width
    ensures var (s, at) := (LineText(names, cells, width), Times(c, width + 2));
      if c + 1 == |cells| then |s| == at + width && Stands(s, at, at + width, names[cells[c]])
      else Stands(s, at, at + width + 2, names[cells[c]])
    decreases |cells|
  {
    hide *;
    var n := |cells| - 1;
    var some, gap, last := cells[..n], if n == 0 then "" else "  ", Padded(names[cells[n]], width);
    var front := LineText(names, some, width);
    LineStep(names, cells, width);
    LineLength(names, some, width);
    OneMore(n, width + 2);
    PaddedIs(names[cells[n]], width);
    if c == n {
      StandsBehind(front + gap, last, width, names[cells[c]]);
    } else {
      CellInLine(names, some, width, c);
      StandsBefore(front, gap, last, Times(c, width + 2), Times(c, width + 2) + width, names[cells[c]]);
      OneMore(c + 1, width + 2);
      StandsBefore(front, gap, last, Times(c, width + 2), Times(c, width + 2) + width + 2, names[cells[c]]);
    }
  }

  lemma {:induction false} LineStep(names: seq<string>, cells: seq<nat>, width: nat)
    requires cells != [] && forall c | 0 <= c < |cells| :: cells[c] < |names| && |names[cells[c]]| <= width
    ensures var n := |cells| - 1;
      LineText(names, cells, width) ==
        LineText(names, cells[..n], width) + (if n == 0 then "" else "  ") + Padded(names[cells[n]], width)
  {
    hide Padded;
  }

  lemma StandsBehind(s: string, last: string, width: nat, name: string)
    requires Stands(last, 0, width, name) && |last| == width
    ensures Stands(s + last, |s|, |s| + width, name) && |s + last| == |s| + width
  {}

  /** What stands in the front stands in the whole, and the gap behind it counts with it. */
  lemma StandsBefore(front: string, gap: string, last: string, at: nat, end: nat, name: string)
    requires gap == "  "
    ensures Stands(front, at, end, name) ==> Stands(front + gap + last, at, end, name)
    ensures Stands(front, at, end, name) && end == |front| ==> Stands(front + gap + last, at, end + 2, name)
  {}

  lemma PaddedIs(name: string, width: nat)
    requires |name| <= width
    ensures |Padded(name, width)| == width && Stands(Padded(name, width), 0, width, name)
  {}

  /** The fewest rows that hold `n` names in that many columns. */
  function LinesFor(n: nat, maxlen: nat): (rows: nat) { (n + Columns(maxlen) - 1) / Columns(maxlen) }

  lemma FewestRows(n: nat, maxlen: nat, rows: nat)
    ensures n <= rows * Columns(maxlen) <==> rows >= LinesFor(n, maxlen)
  {
    var cols := Columns(maxlen);
    hide Columns;
    var q, r := (n + cols - 1) / cols, (n + cols - 1) % cols;
    assert n + cols - 1 == cols * q + r;
    if rows >= q {
      TimesGrows(q, rows, cols);
    } else {
      TimesGrows(rows, q - 1, cols);
      assert (q - 1) * cols == q * cols - cols;
    }
  }

  lemma TimesGrows(a: nat, b: nat, c: nat)
    requires a <= b
    ensures a * c <= b * c
  {}

  predicate Enough(n: nat, rows: nat, columns: nat) { n <= rows * columns }

  /** The number of columns and of rows. */
  method Dimensions(n: nat, maxlen: nat) returns (nPrintCol: nat, nPrintRow: nat)
    requires n > 0
    ensures nPrintRow > 0 && Enough(n, nPrintRow, nPrintCol)
    ensures nPrintCol == Columns(maxlen) && nPrintRow == LinesFor(n, maxlen)
  {
    nPrintCol := 80 / (maxlen + 2);
    if nPrintCol < 1 {
      nPrintCol := 1;
    }
    EnoughRows(n, nPrintCol);
    nPrintRow := (n + nPrintCol - 1) / nPrintCol;
  }

  /** The whole grid: every name once, column by column, on as few lines as the columns allow; no line
      has more names than fit into 80 bytes, unless it has just one. */
  method PrintGrid(names: seq<string>) returns (out: seq<string>, ghost grid: seq<seq<nat>>)
    ensures |out| == LinesFor(|names|, MaxLen(names))
    ensures MaxLen(names) + 2 <= 80 ==> forall i | 0 <= i < |out| :: |out[i]| <= 78
    ensures |grid| == |out| && Filled(grid, |names|)
    ensures forall i | 0 <= i < |grid| :: RowOf(grid[i], |names|, |grid|, i) && out[i] == LineText(names, grid[i], MaxLen(names))
    ensures MaxLen(names) + 2 > 80 ==> forall i | 0 <= i < |grid| :: |grid[i]| <= 1
  {
    FewestRows(0, MaxLen(names), 0);
    hide Place, LineText, MaxLen, Filled, Columns, LinesFor, Enough;
    out, grid := [], [];
    if names == [] {
      RowsFill(grid, 0);
      return;
    }
    var maxlen := Longest(names);
    var nPrintCol, nPrintRow := Dimensions(|names|, maxlen);
    for i := 0 to nPrintRow
      invariant |out| == |grid| == i
      invariant forall r | 0 <= r < i :: RowOf(grid[r], |names|, nPrintRow, r) && out[r] == LineText(names, grid[r], maxlen)
      invariant forall r | 0 <= r < i :: if maxlen + 2 <= 80 then |out[r]| <= 78 else |grid[r]| <= 1
    {
      ghost var cells;
      var line;
      line, cells := PrintLine(names, maxlen, nPrintRow, i);
      LineFits(names, cells, maxlen, nPrintRow, nPrintCol, i);
      out, grid := out + [line], grid + [cells];
    }
    RowsFill(grid, |names|);
  }

  lemma Fits(k: nat, columns: nat, w: nat)
    requires 0 < w <= 80 && k <= columns == 80 / w
    ensures Times(k, w) <= 80
  {
    assert k * w <= columns * w;
    assert (80 / w) * w <= 80;
  }

  lemma {:induction false} LineFits(names: seq<string>, cells: seq<nat>, width: nat, rows: nat, columns: nat, i: nat)
    requires RowOf(cells, |names|, rows, i) && (forall k | 0 <= k < |names| :: |names[k]| <= width)
    requires rows > 0 && Enough(|names|, rows, columns) && columns == Columns(width)
    ensures if width + 2 <= 80 then |LineText(names, cells, width)| <= 78 else |cells| <= 1
  {
    hide Place, LineText, Times;
    FewCells(|cells|, rows, i, |names|, columns);
    if width + 2 <= 80 {
      LineLength(names, cells, width);
      OneMore(|cells|, width + 2);
      Fits(|cells|, columns, width + 2);
    }
  }
}
