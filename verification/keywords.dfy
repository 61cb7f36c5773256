/** The shell's table of SQL keywords, which quoteChar() searches and the completion table lists. */
module Keywords {
  import opened ShellText

  // ---- The table, in parts ----

  function Part0(): (az: seq<string>)
    ensures az != []
  {
    ["ABORT", "ACTION", "ADD", "AFTER", "ALL", "ALTER", "ANALYZE", "AND", "AS", "ASC", "ATTACH"]
  }

  function Part1(): (az: seq<string>)
    ensures az != []
  {
    ["AUTOINCREMENT", "BEFORE", "BEGIN", "BETWEEN", "BY", "CASCADE", "CASE", "CAST", "CHECK",
     "COLLATE", "COLUMN"]
  }

  function Part2(): (az: seq<string>)
    ensures az != []
  {
    ["COMMIT", "CONFLICT", "CONSTRAINT", "CREATE", "CROSS", "CURRENT_DATE", "CURRENT_TIME",
     "CURRENT_TIMESTAMP", "DATABASE", "DEFAULT", "DEFERRABLE"]
  }

  function Part3(): (az: seq<string>)
    ensures az != []
  {
    ["DEFERRED", "DELETE", "DESC", "DETACH", "DISTINCT", "DROP", "EACH", "ELSE", "END", "ESCAPE",
     "EXCEPT"]
  }

  function Part4(): (az: seq<string>)
    ensures az != []
  {
    ["EXCLUSIVE", "EXISTS", "EXPLAIN", "FAIL", "FOR", "FOREIGN", "FROM", "FULL", "GLOB", "GROUP",
     "HAVING"]
  }

  function Part5(): (az: seq<string>)
    ensures az != []
  {
    ["IF", "IGNORE", "IMMEDIATE", "IN", "INDEX", "INDEXED", "INITIALLY", "INNER", "INSERT",
     "INSTEAD", "INTERSECT"]
  }

  function Part6(): (az: seq<string>)
    ensures az != []
  {
    ["INTO", "IS", "ISNULL", "JOIN", "KEY", "LEFT", "LIKE", "LIMIT", "MATCH", "NATURAL", "NO"]
  }

  function Part7(): (az: seq<string>)
    ensures az != []
  {
    ["NOT", "NOTNULL", "NULL", "OF", "OFFSET", "ON", "OR", "ORDER", "OUTER", "PLAN", "PRAGMA"]
  }

  function Part8(): (az: seq<string>)
    ensures az != []
  {
    ["PRIMARY", "QUERY", "RAISE", "RECURSIVE", "REFERENCES", "REGEXP", "REINDEX", "RELEASE",
     "RENAME", "REPLACE", "RESTRICT"]
  }

  function Part9(): (az: seq<string>)
    ensures az != []
  {
    ["RIGHT", "ROLLBACK", "ROW", "SAVEPOINT", "SELECT", "SET", "TABLE", "TEMP", "TEMPORARY",
     "THEN", "TO"]
  }

  function Part10(): (az: seq<string>)
    ensures az != []
  {
    ["TRANSACTION", "TRIGGER", "UNION", "UNIQUE", "UPDATE", "USING", "VACUUM", "VALUES", "VIEW",
     "VIRTUAL", "WHEN"]
  }

  function Part11(): (az: seq<string>)
    ensures az != []
  {
    ["WHERE", "WITH", "WITHOUT"]
  }

  function Table(): (az: seq<string>) {
    Part0() + (Part1() + (Part2() + (Part3() + (Part4() + (Part5() + (Part6() + (Part7()
      + (Part8() + (Part9() + (Part10() + Part11()))))))))))
  }

  // ---- It is sorted ----

  /** Each word comes before the next. */
  ghost predicate Ascending(az: seq<string>) { forall i | 0 <= i < |az| - 1 :: Before(az[i], az[i + 1]) }

  predicate Before(a: string, b: string) { ICmp(a, b) == -1 }

  /** Words that begin alike, for `n` bytes, and then differ. */
  lemma {:induction false} Less(a: string, b: string, n: nat)
    requires n <= |a| && n < |b| && (forall i | 0 <= i < n :: a[i] == b[i])
    requires n == |a| || Lower(a[n]) < Lower(b[n])
    ensures Before(a, b)
  {
    if n > 0 {
      Less(a[1..], b[1..], n - 1);
    }
  }

  lemma {:induction false} AscendingIsSorted(az: seq<string>)
    requires Ascending(az)
    ensures Sorted(az)
  {
    forall i, j | 0 <= i < j < |az| ensures ICmp(az[i], az[j]) == -1 {
      Later(az, i, j);
    }
  }

  lemma {:induction false} Later(az: seq<string>, i: nat, j: nat)
    requires Ascending(az) && i < j < |az|
    ensures ICmp(az[i], az[j]) == -1
    decreases j - i
  {
    assert Before(az[i], az[i + 1]);
    if i + 1 < j {
      Later(az, i + 1, j);
      ICmpOrder(az[i], az[i + 1], az[j]);
    }
  }

  lemma {:induction false} Joined(a: seq<string>, b: seq<string>)
    requires Ascending(a) && Ascending(b) && a != [] && b != [] && Before(a[|a| - 1], b[0])
    ensures Ascending(a + b) && (a + b)[0] == a[0]
  {
    var s := a + b;
    forall i | 0 <= i < |s| - 1 ensures Before(s[i], s[i + 1]) {
      if i < |a| - 1 {
        assert Before(a[i], a[i + 1]);
      } else if i >= |a| {
        assert Before(b[i - |a|], b[i - |a| + 1]);
      }
    }
  }

  lemma Ascending0()
    ensures Ascending(Part0())
    ensures Part0()[0] == "ABORT" && Before(Part0()[|Part0()| - 1], "AUTOINCREMENT")
  {
    hide Before;
    Less("ABORT", "ACTION", 1);
    Less("ACTION", "ADD", 1);
    Less("ADD", "AFTER", 1);
    Less("AFTER", "ALL", 1);
    Less("ALL", "ALTER", 2);
    Less("ALTER", "ANALYZE", 1);
    Less("ANALYZE", "AND", 2);
    Less("AND", "AS", 1);
    Less("AS", "ASC", 2);
    Less("ASC", "ATTACH", 1);
    Less("ATTACH", "AUTOINCREMENT", 1);
  }

  lemma Ascending1()
    ensures Ascending(Part1())
    ensures Part1()[0] == "AUTOINCREMENT" && Before(Part1()[|Part1()| - 1], "COMMIT")
  {
    hide Before;
    Less("AUTOINCREMENT", "BEFORE", 0);
    Less("BEFORE", "BEGIN", 2);
    Less("BEGIN", "BETWEEN", 2);
    Less("BETWEEN", "BY", 1);
    Less("BY", "CASCADE", 0);
    Less("CASCADE", "CASE", 3);
    Less("CASE", "CAST", 3);
    Less("CAST", "CHECK", 1);
    Less("CHECK", "COLLATE", 1);
    Less("COLLATE", "COLUMN", 3);
    Less("COLUMN", "COMMIT", 2);
  }

  lemma Ascending2()
    ensures Ascending(Part2())
    ensures Part2()[0] == "COMMIT" && Before(Part2()[|Part2()| - 1], "DEFERRED")
  {
    hide Before;
    Less("COMMIT", "CONFLICT", 2);
    Less("CONFLICT", "CONSTRAINT", 3);
    Less("CONSTRAINT", "CREATE", 1);
    Less("CREATE", "CROSS", 2);
    Less("CROSS", "CURRENT_DATE", 1);
    Less("CURRENT_DATE", "CURRENT_TIME", 8);
    Less("CURRENT_TIME", "CURRENT_TIMESTAMP", 12);
    Less("CURRENT_TIMESTAMP", "DATABASE", 0);
    Less("DATABASE", "DEFAULT", 1);
    Less("DEFAULT", "DEFERRABLE", 3);
    Less("DEFERRABLE", "DEFERRED", 6);
  }

  lemma Ascending3()
    ensures Ascending(Part3())
    ensures Part3()[0] == "DEFERRED" && Before(Part3()[|Part3()| - 1], "EXCLUSIVE")
  {
    hide Before;
    Less("DEFERRED", "DELETE", 2);
    Less("DELETE", "DESC", 2);
    Less("DESC", "DETACH", 2);
    Less("DETACH", "DISTINCT", 1);
    Less("DISTINCT", "DROP", 1);
    Less("DROP", "EACH", 0);
    Less("EACH", "ELSE", 1);
    Less("ELSE", "END", 1);
    Less("END", "ESCAPE", 1);
    Less("ESCAPE", "EXCEPT", 1);
    Less("EXCEPT", "EXCLUSIVE", 3);
  }

  lemma Ascending4()
    ensures Ascending(Part4())
    ensures Part4()[0] == "EXCLUSIVE" && Before(Part4()[|Part4()| - 1], "IF")
  {
    hide Before;
    Less("EXCLUSIVE", "EXISTS", 2);
    Less("EXISTS", "EXPLAIN", 2);
    Less("EXPLAIN", "FAIL", 0);
    Less("FAIL", "FOR", 1);
    Less("FOR", "FOREIGN", 3);
    Less("FOREIGN", "FROM", 1);
    Less("FROM", "FULL", 1);
    Less("FULL", "GLOB", 0);
    Less("GLOB", "GROUP", 1);
    Less("GROUP", "HAVING", 0);
    Less("HAVING", "IF", 0);
  }

  lemma Ascending5()
    ensures Ascending(Part5())
    ensures Part5()[0] == "IF" && Before(Part5()[|Part5()| - 1], "INTO")
  {
    hide Before;
    Less("IF", "IGNORE", 1);
    Less("IGNORE", "IMMEDIATE", 1);
    Less("IMMEDIATE", "IN", 1);
    Less("IN", "INDEX", 2);
    Less("INDEX", "INDEXED", 5);
    Less("INDEXED", "INITIALLY", 2);
    Less("INITIALLY", "INNER", 2);
    Less("INNER", "INSERT", 2);
    Less("INSERT", "INSTEAD", 3);
    Less("INSTEAD", "INTERSECT", 2);
    Less("INTERSECT", "INTO", 3);
  }

  lemma Ascending6()
    ensures Ascending(Part6())
    ensures Part6()[0] == "INTO" && Before(Part6()[|Part6()| - 1], "NOT")
  {
    hide Before;
    Less("INTO", "IS", 1);
    Less("IS", "ISNULL", 2);
    Less("ISNULL", "JOIN", 0);
    Less("JOIN", "KEY", 0);
    Less("KEY", "LEFT", 0);
    Less("LEFT", "LIKE", 1);
    Less("LIKE", "LIMIT", 2);
    Less("LIMIT", "MATCH", 0);
    Less("MATCH", "NATURAL", 0);
    Less("NATURAL", "NO", 1);
    Less("NO", "NOT", 2);
  }

  lemma Ascending7()
    ensures Ascending(Part7())
    ensures Part7()[0] == "NOT" && Before(Part7()[|Part7()| - 1], "PRIMARY")
  {
    hide Before;
    Less("NOT", "NOTNULL", 3);
    Less("NOTNULL", "NULL", 1);
    Less("NULL", "OF", 0);
    Less("OF", "OFFSET", 2);
    Less("OFFSET", "ON", 1);
    Less("ON", "OR", 1);
    Less("OR", "ORDER", 2);
    Less("ORDER", "OUTER", 1);
    Less("OUTER", "PLAN", 0);
    Less("PLAN", "PRAGMA", 1);
    Less("PRAGMA", "PRIMARY", 2);
  }

  lemma Ascending8()
    ensures Ascending(Part8())
    ensures Part8()[0] == "PRIMARY" && Before(Part8()[|Part8()| - 1], "RIGHT")
  {
    hide Before;
    Less("PRIMARY", "QUERY", 0);
    Less("QUERY", "RAISE", 0);
    Less("RAISE", "RECURSIVE", 1);
    Less("RECURSIVE", "REFERENCES", 2);
    Less("REFERENCES", "REGEXP", 2);
    Less("REGEXP", "REINDEX", 2);
    Less("REINDEX", "RELEASE", 2);
    Less("RELEASE", "RENAME", 2);
    Less("RENAME", "REPLACE", 2);
    Less("REPLACE", "RESTRICT", 2);
    Less("RESTRICT", "RIGHT", 1);
  }

  lemma Ascending9()
    ensures Ascending(Part9())
    ensures Part9()[0] == "RIGHT" && Before(Part9()[|Part9()| - 1], "TRANSACTION")
  {
    hide Before;
    Less("RIGHT", "ROLLBACK", 1);
    Less("ROLLBACK", "ROW", 2);
    Less("ROW", "SAVEPOINT", 0);
    Less("SAVEPOINT", "SELECT", 1);
    Less("SELECT", "SET", 2);
    Less("SET", "TABLE", 0);
    Less("TABLE", "TEMP", 1);
    Less("TEMP", "TEMPORARY", 4);
    Less("TEMPORARY", "THEN", 1);
    Less("THEN", "TO", 1);
    Less("TO", "TRANSACTION", 1);
  }

  lemma Ascending10()
    ensures Ascending(Part10())
    ensures Part10()[0] == "TRANSACTION" && Before(Part10()[|Part10()| - 1], "WHERE")
  {
    hide Before;
    Less("TRANSACTION", "TRIGGER", 2);
    Less("TRIGGER", "UNION", 0);
    Less("UNION", "UNIQUE", 3);
    Less("UNIQUE", "UPDATE", 1);
    Less("UPDATE", "USING", 1);
    Less("USING", "VACUUM", 0);
    Less("VACUUM", "VALUES", 2);
    Less("VALUES", "VIEW", 1);
    Less("VIEW", "VIRTUAL", 2);
    Less("VIRTUAL", "WHEN", 0);
    Less("WHEN", "WHERE", 3);
  }

  lemma Ascending11()
    ensures Ascending(Part11())
    ensures Part11()[0] == "WHERE"
  {
    hide Before;
    Less("WHERE", "WITH", 1);
    Less("WITH", "WITHOUT", 4);
  }

  lemma TableIsItsParts()
    ensures Table() == Part0() + (Part1() + (Part2() + (Part3() + (Part4() + (Part5() + (Part6() + (Part7()
      + (Part8() + (Part9() + (Part10() + Part11()))))))))))
  {
    hide Part0, Part1, Part2, Part3, Part4, Part5, Part6, Part7, Part8, Part9, Part10, Part11;
  }

  lemma TableIsSorted()
    ensures Sorted(Table())
  {
    hide Ascending, Before, Sorted;
    Ascending0();
    Ascending1();
    Ascending2();
    Ascending3();
    Ascending4();
    Ascending5();
    Ascending6();
    Ascending7();
    Ascending8();
    Ascending9();
    Ascending10();
    Ascending11();
    hide *;
    TableIsItsParts();
    var t := Part11();
    Joined(Part10(), t);
    t := Part10() + t;
    Joined(Part9(), t);
    t := Part9() + t;
    Joined(Part8(), t);
    t := Part8() + t;
    Joined(Part7(), t);
    t := Part7() + t;
    Joined(Part6(), t);
    t := Part6() + t;
    Joined(Part5(), t);
    t := Part5() + t;
    Joined(Part4(), t);
    t := Part4() + t;
    Joined(Part3(), t);
    t := Part3() + t;
    Joined(Part2(), t);
    t := Part2() + t;
    Joined(Part1(), t);
    t := Part1() + t;
    Joined(Part0(), t);
    t := Part0() + t;
    AscendingIsSorted(Table());
  }

  /** quoteChar() on the shell's own table. */
  method QuoteName(zName: string) returns (quote: char)
    ensures quote == if StandsAlone(Table(), zName) then NUL else '"'
  {
    hide Table, Sorted;
    TableIsSorted();
    quote := QuoteChar(Table(), zName);
  }
}
