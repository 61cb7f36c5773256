/** The completion() table: a cursor that goes through keywords, databases, tables and columns. */
module Completion {
  import opened Wrappers
  import opened Chars

  const KEYWORDS := 1
  const DATABASES := 7
  const TABLES := 8
  const COLUMNS := 9
  const EOF := 11

  /** The table of keywords, and the rows that the three statements the cursor prepares would return. */
  datatype Source = Source(keywords: seq<string>, databases: seq<string>, tables: seq<string>, columns: seq<string>)
  {
    function Rows(phase: int): (r: seq<string>) {
      if phase == KEYWORDS then keywords
      else if phase == DATABASES then databases
      else if phase == TABLES then tables
      else if phase == COLUMNS then columns
      else []
    }

    /** The rows of the phases after this one. */
    function After(phase: int): (r: seq<string>) {
      if phase == KEYWORDS then databases + (tables + columns)
      else if phase == DATABASES then tables + columns
      else if phase == TABLES then columns
      else []
    }
  }

  /** The phase that follows one. */
  function NextPhase(phase: int): (r: int) {
    if phase == KEYWORDS then DATABASES else if phase == DATABASES then TABLES else if phase == TABLES then COLUMNS else EOF
  }

  // ---- Prefixes ----

  /** `w` is the longest run of word bytes at the end of the line. */
  predicate LastWord(line: string, w: string) {
    && |w| <= |line| && line[|line| - |w|..] == w && (forall k | 0 <= k < |w| :: IsWordByte(w[k]))
    && (|w| < |line| ==> !IsWordByte(line[|line| - |w| - 1]))
  }

  /** Letters, digits and underscores up to the end of the line, behind any other byte or none. */
  lemma LastWordInCodes(front: string, word: string, w: string)
    requires (forall k | 0 <= k < |word| :: WordCode(word[k] as int)) && (front != [] ==> !WordCode(front[|front| - 1] as int))
    ensures LastWord(front + word, w) <==> w == word
  {
    var line := front + word;
    forall k | 0 <= k < |line| ensures IsWordByte(line[k]) <==> WordCode(line[k] as int) {
      ClassesInCodes(line[k]);
    }
    hide IsWordByte, WordCode;
    assert forall k | |front| <= k < |line| :: line[k] == word[k - |front|];
    assert line[|front|..] == word && forall k | 0 <= k < |word| :: word[k] == line[|front| + k];
    if LastWord(line, w) {
      var n := |line| - |w|;
      assert forall k | n <= k < |line| :: line[k] == w[k - n];
      assert n <= |front|;
    }
  }

  /** The rows with the prefix, in order. */
  function Wanted(prefix: string, rows: seq<string>): (r: seq<string>) {
    if rows == [] then [] else (if HasPrefix(prefix, rows[0]) then [rows[0]] else []) + Wanted(prefix, rows[1..])
  }

  function Everything(db: Source): (r: seq<string>) { db.keywords + db.databases + db.tables + db.columns }

  /** Rows with their rowids, which start at `first`. */
  function Numbered(rows: seq<string>, first: nat): (r: seq<(nat, string)>) {
    seq(|rows|, k requires 0 <= k < |rows| => (first + k, rows[k]))
  }

  // ---- The cursor ----

  class Cursor {
    const db: Source
    var zPrefix: string
    var zCurrentRow: Option<string>
    /** The rows the current statement has not returned yet. */
    var pStmt: Option<seq<string>>
    var iRowid: nat
    var ePhase: int
    var j: nat

    ghost predicate Valid()
      reads this`pStmt, this`ePhase, this`j
    {
      && ePhase in {KEYWORDS, DATABASES, TABLES, COLUMNS, EOF} && j <= |db.keywords|
      && (pStmt.Some? ==> ePhase in {DATABASES, TABLES, COLUMNS})
    }

    /** The rows of the current phase that are still to come. */
    ghost function ToCome(): (r: seq<string>)
      reads this`pStmt, this`ePhase, this`j
      requires Valid()
    {
      if ePhase == KEYWORDS then db.keywords[j..] else if pStmt.Some? then pStmt.value else db.Rows(ePhase)
    }

    /** Every row, wanted or not, that the cursor has not looked at. */
    ghost function Pending(): (r: seq<string>)
      reads this`pStmt, this`ePhase, this`j
      requires Valid()
    {
      ToCome() + db.After(ePhase)
    }

    constructor (db: Source)
      ensures this.db == db
    {
      this.db := db;
      zPrefix, zCurrentRow, pStmt, iRowid, ePhase, j := "", None, None, 0, 0, 0;
    }

    /** Looks at one more row, or goes on to the next phase. `looked` tells whether there is a row. */
    method Advance() returns (looked: bool)
      requires Valid() && ePhase != EOF
      modifies this`zCurrentRow, this`pStmt, this`ePhase, this`j
      ensures Valid()
      ensures if looked then zCurrentRow.Some? && old(Pending()) == [zCurrentRow.value] + Pending() && ePhase == old(ePhase)
        else Pending() == old(Pending()) && ePhase > old(ePhase)
    {
      ghost var phase, rows := ePhase, ToCome();
      looked := Look();
      if looked {
        assert rows + db.After(phase) == [rows[0]] + (rows[1..] + db.After(phase));
      } else {
        assert [] + db.After(phase) == db.Rows(NextPhase(phase)) + db.After(NextPhase(phase));
      }
    }

    method Look() returns (looked: bool)
      requires Valid() && ePhase != EOF
      modifies this`zCurrentRow, this`pStmt, this`ePhase, this`j
      ensures Valid() && looked == (old(ToCome()) != [])
      ensures if looked then zCurrentRow == Some(old(ToCome()[0])) && ToCome() == old(ToCome()[1..]) && ePhase == old(ePhase)
        else ToCome() == db.Rows(ePhase) && ePhase == NextPhase(old(ePhase))
    {
      var iCol, eNextPhase := -1, 0;
      if ePhase == KEYWORDS {
        if j >= |db.keywords| {
          zCurrentRow := None;
          ePhase := DATABASES;
        } else {
          zCurrentRow := Some(db.keywords[j]);
          j := j + 1;
        }
      } else if ePhase == DATABASES {
        if pStmt == None {
          pStmt := Some(db.databases);
        }
        iCol, eNextPhase := 1, TABLES;
      } else if ePhase == TABLES {
        if pStmt == None {
          pStmt := Some(db.tables);
        }
        iCol, eNextPhase := 0, COLUMNS;
      } else {
        if pStmt == None {
          pStmt := Some(db.columns);
        }
        iCol, eNextPhase := 0, EOF;
      }
      if iCol < 0 {
        return zCurrentRow != None;
      }
      looked := pStmt.value != [];
      if looked {
        zCurrentRow := Some(pStmt.value[0]);
        pStmt := Some(pStmt.value[1..]);
      } else {
        pStmt := None;
        ePhase := eNextPhase;
      }
    }

    /** The next wanted row, or the end. */
    method Next()
      requires Valid()
      modifies this`zCurrentRow, this`pStmt, this`ePhase, this`j, this`iRowid
      ensures Valid() && iRowid == old(iRowid) + 1
      ensures var wanted := Wanted(zPrefix, old(Pending()));
        if wanted == [] then ePhase == EOF
        else ePhase != EOF && zCurrentRow == Some(wanted[0]) && Wanted(zPrefix, Pending()) == wanted[1..]
    {
      hide Pending;
      iRowid := iRowid + 1;
      while ePhase != EOF
        invariant Valid() && iRowid == old(iRowid) + 1
        invariant Wanted(zPrefix, Pending()) == Wanted(zPrefix, old(Pending()))
        decreases |Pending()|, EOF - ePhase
      {
        var looked := Advance();
        if looked {
          if |zPrefix| == 0 {
            assert HasPrefix(zPrefix, zCurrentRow.value);
            return;
          }
          var same := SameStart(zPrefix, zCurrentRow.value);
          if same {
            return;
          }
        }
      }
      NothingPending(this);
    }

    /** Rewinds the cursor. An empty or missing prefix is taken from the end of the line. */
    method Filter(prefix: Option<string>, line: Option<string>)
      modifies this`zPrefix, this`zCurrentRow, this`pStmt, this`iRowid, this`ePhase, this`j
      ensures Valid() && iRowid == 1
      ensures if prefix.Some? && prefix.value != [] then zPrefix == prefix.value
        else if line.Some? then LastWord(line.value, zPrefix)
        else zPrefix == []
      ensures var wanted := Wanted(zPrefix, Everything(db));
        if wanted == [] then ePhase == EOF
        else ePhase != EOF && zCurrentRow == Some(wanted[0]) && Wanted(zPrefix, Pending()) == wanted[1..]
    {
      zPrefix, pStmt, j := "", None, 0;
      if prefix.Some? {
        zPrefix := prefix.value;
      }
      if line.Some? && zPrefix == [] {
        var i := |line.value|;
        while i > 0 && IsWordByte(line.value[i - 1])
          invariant 0 <= i <= |line.value| && forall k | i <= k < |line.value| :: IsWordByte(line.value[k])
        {
          i := i - 1;
        }
        zPrefix := line.value[i..];
      }
      iRowid, ePhase := 0, KEYWORDS;
      assert Pending() == Everything(db) by {
        assert db.keywords[0..] == db.keywords;
      }
      Next();
    }
  }

  lemma NothingPending(c: Cursor)
    requires c.Valid() && c.ePhase == EOF
    ensures Wanted(c.zPrefix, c.Pending()) == []
  {}

  lemma {:induction false} NumberedMore(rows: seq<string>, k: nat, first: nat)
    requires k < |rows|
    ensures Numbered(rows[..k + 1], first) == Numbered(rows[..k], first) + [(first + k, rows[k])]
  {}

  /** A whole scan, as the library runs it: rewind, then take rows until the end. It yields the
      wanted rows of all four phases in order, numbered from 1. */
  method Scan(c: Cursor, prefix: Option<string>, line: Option<string>) returns (rows: seq<(nat, string)>)
    modifies c
    ensures if prefix.Some? && prefix.value != [] then c.zPrefix == prefix.value
      else if line.Some? then LastWord(line.value, c.zPrefix)
      else c.zPrefix == []
    ensures var wanted := Wanted(c.zPrefix, c.db.keywords + c.db.databases + c.db.tables + c.db.columns);
      |rows| == |wanted| && forall k | 0 <= k < |rows| :: rows[k] == (k + 1, wanted[k])
    ensures c.ePhase == EOF
  {
    hide Wanted, LastWord;
    c.Filter(prefix, line);
    ghost var all := Wanted(c.zPrefix, Everything(c.db));
    ghost var p := c.zPrefix;
    rows := [];
    while c.ePhase != EOF
      invariant c.Valid() && c.zPrefix == p && |rows| <= |all| && c.iRowid == |rows| + 1
      invariant rows == Numbered(all[..|rows|], 1)
      invariant if |rows| == |all| then c.ePhase == EOF
        else c.ePhase != EOF && c.zCurrentRow == Some(all[|rows|]) && Wanted(p, c.Pending()) == all[|rows| + 1..]
      decreases |all| - |rows|
    {
      NumberedMore(all, |rows|, 1);
      rows := rows + [(c.iRowid, c.zCurrentRow.value)];
      c.Next();
    }
    assert all[..|rows|] == all;
  }

  /** Where the wanted rows stand among all rows: at every row that has the prefix, in order. */
  function Places(prefix: string, rows: seq<string>, first: nat): (at: seq<nat>)
    ensures forall k | 0 <= k < |at| :: first <= at[k] < first + |rows|
  {
    if rows == [] then []
    else (if HasPrefix(prefix, rows[0]) then [first] else []) + Places(prefix, rows[1..], first + 1)
  }

  /** The rows of a scan are those with the prefix, each as often and in the same order. */
  lemma {:induction false} WantedInOrder(prefix: string, rows: seq<string>, first: nat)
    ensures var (w, at) := (Wanted(prefix, rows), Places(prefix, rows, first));
      && |at| == |w| && (forall k | 0 <= k < |w| :: rows[at[k] - first] == w[k])
      && (forall k, l | 0 <= k < l < |w| :: at[k] < at[l])
    ensures forall i | first <= i < first + |rows| :: HasPrefix(prefix, rows[i - first]) <==> i in Places(prefix, rows, first)
  {
    if rows != [] {
      hide HasPrefix;
      var tail := rows[1..];
      WantedInOrder(prefix, tail, first + 1);
      assert forall k | 0 <= k < |tail| :: tail[k] == rows[k + 1];
    }
  }
}
