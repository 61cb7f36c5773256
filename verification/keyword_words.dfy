/** The keywords that the library's tables spell are the words of the shell's table. */
module KeywordWords {
  import opened KeywordTables
  import opened Keywords

  // ---- What the keywords are ----

  /** A word within one row of the text. */
  lemma Spelled(k: nat, a: string, w: string, b: string, r: nat)
    requires k < 124 && r < 31 && |a + w + b| == |TextRow(r)| && TextRow(r) == a + w + b
    requires At(k).len == |w| && At(k).offset == 18 * r + |a|
    ensures Is(k, w)
  {
    hide TextRow, At;
    forall j | 0 <= j < |w| ensures TextAt(At(k).offset + j) == w[j] {
      assert (At(k).offset + j) / 18 == r && (At(k).offset + j) % 18 == |a| + j;
      assert (a + w + b)[|a| + j] == w[j];
    }
  }

  /** A word that begins in one row and ends in the next. */
  lemma SpelledOver(k: nat, u: string, v: string, a: string, b: string, r: nat, p: nat)
    requires k < 124 && r < 30 && TextRow(r) == a && TextRow(r + 1) == b
    requires p + |u| == 18 && |v| <= |b| && a[p..] == u && b[..|v|] == v
    requires At(k).len == |u| + |v| && At(k).offset == 18 * r + p
    ensures Is(k, u + v)
  {
    hide TextRow, At;
    forall j | 0 <= j < |u + v| ensures TextAt(At(k).offset + j) == (u + v)[j] {
      if j < |u| {
        assert (At(k).offset + j) / 18 == r && (At(k).offset + j) % 18 == p + j;
        assert a[p + j] == a[p..][j];
      } else {
        assert (At(k).offset + j) / 18 == r + 1 && (At(k).offset + j) % 18 == j - |u|;
        assert b[j - |u|] == b[..|v|][j - |u|];
      }
    }
  }

  lemma Words0()
    ensures Is(0, "REINDEX") && Is(1, "INDEXED") && Is(2, "INDEX") && Is(3, "DESC")
  {
    hide *;
    Text0();
    At0();
    Spelled(0, "", "REINDEX", "EDESCAPEACH", 0);
    Spelled(1, "RE", "INDEXED", "ESCAPEACH", 0);
    Spelled(2, "RE", "INDEX", "EDESCAPEACH", 0);
    Spelled(3, "REINDEXE", "DESC", "APEACH", 0);
  }

  lemma Words1()
    ensures Is(4, "ESCAPE") && Is(5, "EACH") && Is(6, "CHECK") && Is(7, "KEY")
  {
    hide *;
    Text0();
    At0();
    Spelled(4, "REINDEXED", "ESCAPE", "ACH", 0);
    Spelled(5, "REINDEXEDESCAP", "EACH", "", 0);
    assert "CH" + "ECK" == "CHECK";
    SpelledOver(6, "CH", "ECK", "REINDEXEDESCAPEACH", "ECKEYBEFOREIGNOREG", 0, 16);
    Spelled(7, "EC", "KEY", "BEFOREIGNOREG", 1);
  }

  lemma Words2()
    ensures Is(8, "BEFORE") && Is(9, "FOREIGN") && Is(10, "FOR") && Is(11, "IGNORE")
  {
    hide *;
    Text0();
    At0();
    Spelled(8, "ECKEY", "BEFORE", "IGNOREG", 1);
    Spelled(9, "ECKEYBE", "FOREIGN", "OREG", 1);
    Spelled(10, "ECKEYBE", "FOR", "EIGNOREG", 1);
    Spelled(11, "ECKEYBEFORE", "IGNORE", "G", 1);
  }

  lemma Words3()
    ensures Is(12, "REGEXP") && Is(13, "EXPLAIN") && Is(14, "INSTEAD") && Is(15, "ADD")
  {
    hide *;
    Text0();
    At0();
    At1();
    assert "REG" + "EXP" == "REGEXP";
    SpelledOver(12, "REG", "EXP", "ECKEYBEFOREIGNOREG", "EXPLAINSTEADDATABA", 1, 15);
    Spelled(13, "", "EXPLAIN", "STEADDATABA", 2);
    Spelled(14, "EXPLA", "INSTEAD", "DATABA", 2);
    Spelled(15, "EXPLAINSTE", "ADD", "ATABA", 2);
  }

  lemma Words4()
    ensures Is(16, "DATABASE") && Is(17, "AS") && Is(18, "SELECT") && Is(19, "TABLE")
  {
    hide *;
    Text0();
    At1();
    assert "DATABA" + "SE" == "DATABASE";
    SpelledOver(16, "DATABA", "SE", "EXPLAINSTEADDATABA", "SELECTABLEFTHENDEF", 2, 12);
    assert "A" + "S" == "AS";
    SpelledOver(17, "A", "S", "EXPLAINSTEADDATABA", "SELECTABLEFTHENDEF", 2, 17);
    Spelled(18, "", "SELECT", "ABLEFTHENDEF", 3);
    Spelled(19, "SELEC", "TABLE", "FTHENDEF", 3);
  }

  lemma Words5()
    ensures Is(20, "LEFT") && Is(21, "THEN") && Is(22, "END") && Is(23, "DEFERRABLE")
  {
    hide *;
    Text0();
    Text1();
    At1();
    Spelled(20, "SELECTAB", "LEFT", "HENDEF", 3);
    Spelled(21, "SELECTABLEF", "THEN", "DEF", 3);
    Spelled(22, "SELECTABLEFTH", "END", "EF", 3);
    assert "DEF" + "ERRABLE" == "DEFERRABLE";
    SpelledOver(23, "DEF", "ERRABLE", "SELECTABLEFTHENDEF", "ERRABLELSEXCEPTRAN", 3, 15);
  }

  lemma Words6()
    ensures Is(24, "ELSE") && Is(25, "EXCEPT") && Is(26, "TRANSACTION") && Is(27, "ACTION")
  {
    hide *;
    Text1();
    At1();
    At2();
    Spelled(24, "ERRABL", "ELSE", "XCEPTRAN", 4);
    Spelled(25, "ERRABLELS", "EXCEPT", "RAN", 4);
    assert "TRAN" + "SACTION" == "TRANSACTION";
    SpelledOver(26, "TRAN", "SACTION", "ERRABLELSEXCEPTRAN", "SACTIONATURALTERAI", 4, 14);
    Spelled(27, "S", "ACTION", "ATURALTERAI", 5);
  }

  lemma Words7()
    ensures Is(28, "ON") && Is(29, "NATURAL") && Is(30, "ALTER") && Is(31, "RAISE")
  {
    hide *;
    Text1();
    At2();
    Spelled(28, "SACTI", "ON", "ATURALTERAI", 5);
    Spelled(29, "SACTIO", "NATURAL", "TERAI", 5);
    Spelled(30, "SACTIONATUR", "ALTER", "AI", 5);
    assert "RAI" + "SE" == "RAISE";
    SpelledOver(31, "RAI", "SE", "SACTIONATURALTERAI", "SEXCLUSIVEXISTSAVE", 5, 15);
  }

  lemma Words8()
    ensures Is(32, "EXCLUSIVE") && Is(33, "EXISTS") && Is(34, "SAVEPOINT") && Is(35, "INTERSECT")
  {
    hide *;
    Text1();
    At2();
    Spelled(32, "S", "EXCLUSIVE", "XISTSAVE", 6);
    Spelled(33, "SEXCLUSIV", "EXISTS", "AVE", 6);
    assert "SAVE" + "POINT" == "SAVEPOINT";
    SpelledOver(34, "SAVE", "POINT", "SEXCLUSIVEXISTSAVE", "POINTERSECTRIGGERE", 6, 14);
    Spelled(35, "PO", "INTERSECT", "RIGGERE", 7);
  }

  lemma Words9()
    ensures Is(36, "TRIGGER") && Is(37, "REFERENCES") && Is(38, "CONSTRAINT") && Is(39, "INTO")
  {
    hide *;
    Text1();
    Text2();
    At2();
    At3();
    Spelled(36, "POINTERSEC", "TRIGGER", "E", 7);
    assert "RE" + "FERENCES" == "REFERENCES";
    SpelledOver(37, "RE", "FERENCES", "POINTERSECTRIGGERE", "FERENCESCONSTRAINT", 7, 16);
    Spelled(38, "FERENCES", "CONSTRAINT", "", 8);
    assert "INT" + "O" == "INTO";
    SpelledOver(39, "INT", "O", "FERENCESCONSTRAINT", "OFFSETEMPORARYUNIQ", 8, 15);
  }

  lemma Words10()
    ensures Is(40, "OFFSET") && Is(41, "OF") && Is(42, "SET") && Is(43, "TEMPORARY")
  {
    hide *;
    Text2();
    At3();
    Spelled(40, "", "OFFSET", "EMPORARYUNIQ", 9);
    Spelled(41, "", "OF", "FSETEMPORARYUNIQ", 9);
    Spelled(42, "OFF", "SET", "EMPORARYUNIQ", 9);
    Spelled(43, "OFFSE", "TEMPORARY", "UNIQ", 9);
  }

  lemma Words11()
    ensures Is(44, "TEMP") && Is(45, "OR") && Is(46, "UNIQUE") && Is(47, "QUERY")
  {
    hide *;
    Text2();
    At3();
    Spelled(44, "OFFSE", "TEMP", "ORARYUNIQ", 9);
    Spelled(45, "OFFSETEMP", "OR", "ARYUNIQ", 9);
    assert "UNIQ" + "UE" == "UNIQUE";
    SpelledOver(46, "UNIQ", "UE", "OFFSETEMPORARYUNIQ", "UERYWITHOUTERELEAS", 9, 14);
    assert "Q" + "UERY" == "QUERY";
    SpelledOver(47, "Q", "UERY", "OFFSETEMPORARYUNIQ", "UERYWITHOUTERELEAS", 9, 17);
  }

  lemma Words12()
    ensures Is(48, "WITHOUT") && Is(49, "WITH") && Is(50, "OUTER") && Is(51, "RELEASE")
  {
    hide *;
    Text2();
    At3();
    Spelled(48, "UERY", "WITHOUT", "ERELEAS", 10);
    Spelled(49, "UERY", "WITH", "OUTERELEAS", 10);
    Spelled(50, "UERYWITH", "OUTER", "ELEAS", 10);
    assert "RELEAS" + "E" == "RELEASE";
    SpelledOver(51, "RELEAS", "E", "UERYWITHOUTERELEAS", "EATTACHAVINGROUPDA", 10, 12);
  }

  lemma Words13()
    ensures Is(52, "ATTACH") && Is(53, "HAVING") && Is(54, "GROUP") && Is(55, "UPDATE")
  {
    hide *;
    Text2();
    Text3();
    At4();
    Spelled(52, "E", "ATTACH", "AVINGROUPDA", 11);
    Spelled(53, "EATTAC", "HAVING", "ROUPDA", 11);
    Spelled(54, "EATTACHAVIN", "GROUP", "DA", 11);
    assert "UPDA" + "TE" == "UPDATE";
    SpelledOver(55, "UPDA", "TE", "EATTACHAVINGROUPDA", "TEBEGINNERECURSIVE", 11, 14);
  }

  lemma Words14()
    ensures Is(56, "BEGIN") && Is(57, "INNER") && Is(58, "RECURSIVE") && Is(59, "BETWEEN")
  {
    hide *;
    Text3();
    At4();
    Spelled(56, "TE", "BEGIN", "NERECURSIVE", 12);
    Spelled(57, "TEBEG", "INNER", "ECURSIVE", 12);
    Spelled(58, "TEBEGINNE", "RECURSIVE", "", 12);
    Spelled(59, "", "BETWEEN", "OTNULLIKECA", 13);
  }

  lemma Words15()
    ensures Is(60, "NOTNULL") && Is(61, "NOT") && Is(62, "NO") && Is(63, "NULL")
  {
    hide *;
    Text3();
    At4();
    Spelled(60, "BETWEE", "NOTNULL", "IKECA", 13);
    Spelled(61, "BETWEE", "NOT", "NULLIKECA", 13);
    Spelled(62, "BETWEE", "NO", "TNULLIKECA", 13);
    Spelled(63, "BETWEENOT", "NULL", "IKECA", 13);
  }

  lemma Words16()
    ensures Is(64, "LIKE") && Is(65, "CASCADE") && Is(66, "ASC") && Is(67, "DELETE")
  {
    hide *;
    Text3();
    At4();
    At5();
    Spelled(64, "BETWEENOTNUL", "LIKE", "CA", 13);
    assert "CA" + "SCADE" == "CASCADE";
    SpelledOver(65, "CA", "SCADE", "BETWEENOTNULLIKECA", "SCADELETECASECOLLA", 13, 16);
    assert "A" + "SC" == "ASC";
    SpelledOver(66, "A", "SC", "BETWEENOTNULLIKECA", "SCADELETECASECOLLA", 13, 17);
    Spelled(67, "SCA", "DELETE", "CASECOLLA", 14);
  }

  lemma Words17()
    ensures Is(68, "CASE") && Is(69, "COLLATE") && Is(70, "CREATE") && Is(71, "CURRENT_DATE")
  {
    hide *;
    Text3();
    Text4();
    At5();
    Spelled(68, "SCADELETE", "CASE", "COLLA", 14);
    assert "COLLA" + "TE" == "COLLATE";
    SpelledOver(69, "COLLA", "TE", "SCADELETECASECOLLA", "TECREATECURRENT_DA", 14, 13);
    Spelled(70, "TE", "CREATE", "CURRENT_DA", 15);
    assert "CURRENT_DA" + "TE" == "CURRENT_DATE";
    SpelledOver(71, "CURRENT_DA", "TE", "TECREATECURRENT_DA", "TEDETACHIMMEDIATEJ", 15, 8);
  }

  lemma Words18()
    ensures Is(72, "DETACH") && Is(73, "IMMEDIATE") && Is(74, "JOIN") && Is(75, "INSERT")
  {
    hide *;
    Text4();
    At5();
    Spelled(72, "TE", "DETACH", "IMMEDIATEJ", 16);
    Spelled(73, "TEDETACH", "IMMEDIATE", "J", 16);
    assert "J" + "OIN" == "JOIN";
    SpelledOver(74, "J", "OIN", "TEDETACHIMMEDIATEJ", "OINSERTMATCHPLANAL", 16, 17);
    Spelled(75, "O", "INSERT", "MATCHPLANAL", 17);
  }

  lemma Words19()
    ensures Is(76, "MATCH") && Is(77, "PLAN") && Is(78, "ANALYZE") && Is(79, "PRAGMA")
  {
    hide *;
    Text4();
    At5();
    At6();
    Spelled(76, "OINSERT", "MATCH", "PLANAL", 17);
    Spelled(77, "OINSERTMATCH", "PLAN", "AL", 17);
    assert "ANAL" + "YZE" == "ANALYZE";
    SpelledOver(78, "ANAL", "YZE", "OINSERTMATCHPLANAL", "YZEPRAGMABORTVALUE", 17, 14);
    Spelled(79, "YZE", "PRAGMA", "BORTVALUE", 18);
  }

  lemma Words20()
    ensures Is(80, "ABORT") && Is(81, "VALUES") && Is(82, "VIRTUAL") && Is(83, "LIMIT")
  {
    hide *;
    Text4();
    At6();
    Spelled(80, "YZEPRAGM", "ABORT", "VALUE", 18);
    assert "VALUE" + "S" == "VALUES";
    SpelledOver(81, "VALUE", "S", "YZEPRAGMABORTVALUE", "SVIRTUALIMITWHENWH", 18, 13);
    Spelled(82, "S", "VIRTUAL", "IMITWHENWH", 19);
    Spelled(83, "SVIRTUA", "LIMIT", "WHENWH", 19);
  }

  lemma Words21()
    ensures Is(84, "WHEN") && Is(85, "WHERE") && Is(86, "RENAME") && Is(87, "AFTER")
  {
    hide *;
    Text4();
    Text5();
    At6();
    Spelled(84, "SVIRTUALIMIT", "WHEN", "WH", 19);
    assert "WH" + "ERE" == "WHERE";
    SpelledOver(85, "WH", "ERE", "SVIRTUALIMITWHENWH", "ERENAMEAFTEREPLACE", 19, 16);
    Spelled(86, "E", "RENAME", "AFTEREPLACE", 20);
    Spelled(87, "ERENAME", "AFTER", "EPLACE", 20);
  }

  lemma Words22()
    ensures Is(88, "REPLACE") && Is(89, "AND") && Is(90, "DEFAULT") && Is(91, "AUTOINCREMENT")
  {
    hide *;
    Text5();
    At6();
    At7();
    Spelled(88, "ERENAMEAFTE", "REPLACE", "", 20);
    Spelled(89, "", "AND", "EFAULTAUTOINCRE", 21);
    Spelled(90, "AN", "DEFAULT", "AUTOINCRE", 21);
    assert "AUTOINCRE" + "MENT" == "AUTOINCREMENT";
    SpelledOver(91, "AUTOINCRE", "MENT", "ANDEFAULTAUTOINCRE", "MENTCASTCOLUMNCOMM", 21, 9);
  }

  lemma Words23()
    ensures Is(92, "TO") && Is(93, "IN") && Is(94, "CAST") && Is(95, "COLUMN")
  {
    hide *;
    Text5();
    At7();
    Spelled(92, "ANDEFAULTAU", "TO", "INCRE", 21);
    Spelled(93, "ANDEFAULTAUTO", "IN", "CRE", 21);
    Spelled(94, "MENT", "CAST", "COLUMNCOMM", 22);
    Spelled(95, "MENTCAST", "COLUMN", "COMM", 22);
  }

  lemma Words24()
    ensures Is(96, "COMMIT") && Is(97, "CONFLICT") && Is(98, "CROSS") && Is(99, "CURRENT_TIMESTAMP")
  {
    hide *;
    Text5();
    Text6();
    At7();
    assert "COMM" + "IT" == "COMMIT";
    SpelledOver(96, "COMM", "IT", "MENTCASTCOLUMNCOMM", "ITCONFLICTCROSSCUR", 22, 14);
    Spelled(97, "IT", "CONFLICT", "CROSSCUR", 23);
    Spelled(98, "ITCONFLICT", "CROSS", "CUR", 23);
    assert "CUR" + "RENT_TIMESTAMP" == "CURRENT_TIMESTAMP";
    SpelledOver(99, "CUR", "RENT_TIMESTAMP", "ITCONFLICTCROSSCUR", "RENT_TIMESTAMPRIMA", 23, 15);
  }

  lemma Words25()
    ensures Is(100, "CURRENT_TIME") && Is(101, "PRIMARY") && Is(102, "DEFERRED") && Is(103, "DISTINCT")
  {
    hide *;
    Text5();
    Text6();
    At7();
    assert "CUR" + "RENT_TIME" == "CURRENT_TIME";
    SpelledOver(100, "CUR", "RENT_TIME", "ITCONFLICTCROSSCUR", "RENT_TIMESTAMPRIMA", 23, 15);
    assert "PRIMA" + "RY" == "PRIMARY";
    SpelledOver(101, "PRIMA", "RY", "RENT_TIMESTAMPRIMA", "RYDEFERREDISTINCTD", 24, 13);
    Spelled(102, "RY", "DEFERRED", "ISTINCTD", 25);
    Spelled(103, "RYDEFERRE", "DISTINCT", "D", 25);
  }

  lemma Words26()
    ensures Is(104, "IS") && Is(105, "DROP") && Is(106, "FAIL") && Is(107, "FROM")
  {
    hide *;
    Text6();
    At8();
    Spelled(104, "RYDEFERRED", "IS", "TINCTD", 25);
    assert "D" + "ROP" == "DROP";
    SpelledOver(105, "D", "ROP", "RYDEFERREDISTINCTD", "ROPFAILFROMFULLGLO", 25, 17);
    Spelled(106, "ROP", "FAIL", "FROMFULLGLO", 26);
    Spelled(107, "ROPFAIL", "FROM", "FULLGLO", 26);
  }

  lemma Words27()
    ensures Is(108, "FULL") && Is(109, "GLOB") && Is(110, "BY") && Is(111, "IF")
  {
    hide *;
    Text6();
    At8();
    Spelled(108, "ROPFAILFROM", "FULL", "GLO", 26);
    assert "GLO" + "B" == "GLOB";
    SpelledOver(109, "GLO", "B", "ROPFAILFROMFULLGLO", "BYIFISNULLORDEREST", 26, 15);
    Spelled(110, "", "BY", "IFISNULLORDEREST", 27);
    Spelled(111, "BY", "IF", "ISNULLORDEREST", 27);
  }

  lemma Words28()
    ensures Is(112, "ISNULL") && Is(113, "ORDER") && Is(114, "RESTRICT") && Is(115, "RIGHT")
  {
    hide *;
    Text6();
    Text7();
    At8();
    Spelled(112, "BYIF", "ISNULL", "ORDEREST", 27);
    Spelled(113, "BYIFISNULL", "ORDER", "EST", 27);
    assert "REST" + "RICT" == "RESTRICT";
    SpelledOver(114, "REST", "RICT", "BYIFISNULLORDEREST", "RICTRIGHTROLLBACKR", 27, 14);
    Spelled(115, "RICT", "RIGHT", "ROLLBACKR", 28);
  }

  lemma Words29()
    ensures Is(116, "ROLLBACK") && Is(117, "ROW") && Is(118, "UNION") && Is(119, "USING")
  {
    hide *;
    Text7();
    At8();
    At9();
    Spelled(116, "RICTRIGHT", "ROLLBACK", "R", 28);
    assert "R" + "OW" == "ROW";
    SpelledOver(117, "R", "OW", "RICTRIGHTROLLBACKR", "OWUNIONUSINGVACUUM", 28, 17);
    Spelled(118, "OW", "UNION", "USINGVACUUM", 29);
    Spelled(119, "OWUNION", "USING", "VACUUM", 29);
  }

  lemma Words30()
    ensures Is(120, "VACUUM") && Is(121, "VIEW") && Is(122, "INITIALLY") && Is(123, "ALL")
  {
    hide *;
    Text7();
    At9();
    Spelled(120, "OWUNIONUSING", "VACUUM", "", 29);
    Spelled(121, "", "VIEW", "INITIALLY", 30);
    Spelled(122, "VIEW", "INITIALLY", "", 30);
    Spelled(123, "VIEWINITI", "ALL", "Y", 30);
  }

  // ---- The shell's table beside it ----

  lemma Part0IsThere()
    ensures AllKeywords(Part0())
    ensures Lists(80, Part0()) && Lists(27, Part0()) && Lists(15, Part0()) && Lists(87, Part0())
    ensures Lists(123, Part0()) && Lists(30, Part0()) && Lists(78, Part0()) && Lists(89, Part0())
    ensures Lists(17, Part0()) && Lists(66, Part0()) && Lists(52, Part0())
  {
    hide Is, Lists, IsKeyword;
    Words3();
    Words4();
    Words6();
    Words7();
    Words13();
    Words16();
    Words19();
    Words20();
    Words21();
    Words22();
    Words30();
    Listed(80, "ABORT", Part0(), 0);
    Listed(27, "ACTION", Part0(), 1);
    Listed(15, "ADD", Part0(), 2);
    Listed(87, "AFTER", Part0(), 3);
    Listed(123, "ALL", Part0(), 4);
    Listed(30, "ALTER", Part0(), 5);
    Listed(78, "ANALYZE", Part0(), 6);
    Listed(89, "AND", Part0(), 7);
    Listed(17, "AS", Part0(), 8);
    Listed(66, "ASC", Part0(), 9);
    Listed(52, "ATTACH", Part0(), 10);
  }

  lemma Part1IsThere()
    ensures AllKeywords(Part1())
    ensures Lists(91, Part1()) && Lists(8, Part1()) && Lists(56, Part1()) && Lists(59, Part1())
    ensures Lists(110, Part1()) && Lists(65, Part1()) && Lists(68, Part1()) && Lists(94, Part1())
    ensures Lists(6, Part1()) && Lists(69, Part1()) && Lists(95, Part1())
  {
    hide Is, Lists, IsKeyword;
    Words1();
    Words2();
    Words14();
    Words16();
    Words17();
    Words22();
    Words23();
    Words27();
    Listed(91, "AUTOINCREMENT", Part1(), 0);
    Listed(8, "BEFORE", Part1(), 1);
    Listed(56, "BEGIN", Part1(), 2);
    Listed(59, "BETWEEN", Part1(), 3);
    Listed(110, "BY", Part1(), 4);
    Listed(65, "CASCADE", Part1(), 5);
    Listed(68, "CASE", Part1(), 6);
    Listed(94, "CAST", Part1(), 7);
    Listed(6, "CHECK", Part1(), 8);
    Listed(69, "COLLATE", Part1(), 9);
    Listed(95, "COLUMN", Part1(), 10);
  }

  lemma Part2IsThere()
    ensures AllKeywords(Part2())
    ensures Lists(96, Part2()) && Lists(97, Part2()) && Lists(38, Part2()) && Lists(70, Part2())
    ensures Lists(98, Part2()) && Lists(71, Part2()) && Lists(100, Part2()) && Lists(99, Part2())
    ensures Lists(16, Part2()) && Lists(90, Part2()) && Lists(23, Part2())
  {
    hide Is, Lists, IsKeyword;
    Words4();
    Words5();
    Words9();
    Words17();
    Words22();
    Words24();
    Words25();
    Listed(96, "COMMIT", Part2(), 0);
    Listed(97, "CONFLICT", Part2(), 1);
    Listed(38, "CONSTRAINT", Part2(), 2);
    Listed(70, "CREATE", Part2(), 3);
    Listed(98, "CROSS", Part2(), 4);
    Listed(71, "CURRENT_DATE", Part2(), 5);
    Listed(100, "CURRENT_TIME", Part2(), 6);
    Listed(99, "CURRENT_TIMESTAMP", Part2(), 7);
    Listed(16, "DATABASE", Part2(), 8);
    Listed(90, "DEFAULT", Part2(), 9);
    Listed(23, "DEFERRABLE", Part2(), 10);
  }

  lemma Part3IsThere()
    ensures AllKeywords(Part3())
    ensures Lists(102, Part3()) && Lists(67, Part3()) && Lists(3, Part3()) && Lists(72, Part3())
    ensures Lists(103, Part3()) && Lists(105, Part3()) && Lists(5, Part3()) && Lists(24, Part3())
    ensures Lists(22, Part3()) && Lists(4, Part3()) && Lists(25, Part3())
  {
    hide Is, Lists, IsKeyword;
    Words0();
    Words1();
    Words5();
    Words6();
    Words16();
    Words18();
    Words25();
    Words26();
    Listed(102, "DEFERRED", Part3(), 0);
    Listed(67, "DELETE", Part3(), 1);
    Listed(3, "DESC", Part3(), 2);
    Listed(72, "DETACH", Part3(), 3);
    Listed(103, "DISTINCT", Part3(), 4);
    Listed(105, "DROP", Part3(), 5);
    Listed(5, "EACH", Part3(), 6);
    Listed(24, "ELSE", Part3(), 7);
    Listed(22, "END", Part3(), 8);
    Listed(4, "ESCAPE", Part3(), 9);
    Listed(25, "EXCEPT", Part3(), 10);
  }

  lemma Part4IsThere()
    ensures AllKeywords(Part4())
    ensures Lists(32, Part4()) && Lists(33, Part4()) && Lists(13, Part4()) && Lists(106, Part4())
    ensures Lists(10, Part4()) && Lists(9, Part4()) && Lists(107, Part4()) && Lists(108, Part4())
    ensures Lists(109, Part4()) && Lists(54, Part4()) && Lists(53, Part4())
  {
    hide Is, Lists, IsKeyword;
    Words2();
    Words3();
    Words8();
    Words13();
    Words26();
    Words27();
    Listed(32, "EXCLUSIVE", Part4(), 0);
    Listed(33, "EXISTS", Part4(), 1);
    Listed(13, "EXPLAIN", Part4(), 2);
    Listed(106, "FAIL", Part4(), 3);
    Listed(10, "FOR", Part4(), 4);
    Listed(9, "FOREIGN", Part4(), 5);
    Listed(107, "FROM", Part4(), 6);
    Listed(108, "FULL", Part4(), 7);
    Listed(109, "GLOB", Part4(), 8);
    Listed(54, "GROUP", Part4(), 9);
    Listed(53, "HAVING", Part4(), 10);
  }

  lemma Part5IsThere()
    ensures AllKeywords(Part5())
    ensures Lists(111, Part5()) && Lists(11, Part5()) && Lists(73, Part5()) && Lists(93, Part5())
    ensures Lists(2, Part5()) && Lists(1, Part5()) && Lists(122, Part5()) && Lists(57, Part5())
    ensures Lists(75, Part5()) && Lists(14, Part5()) && Lists(35, Part5())
  {
    hide Is, Lists, IsKeyword;
    Words0();
    Words2();
    Words3();
    Words8();
    Words14();
    Words18();
    Words23();
    Words27();
    Words30();
    Listed(111, "IF", Part5(), 0);
    Listed(11, "IGNORE", Part5(), 1);
    Listed(73, "IMMEDIATE", Part5(), 2);
    Listed(93, "IN", Part5(), 3);
    Listed(2, "INDEX", Part5(), 4);
    Listed(1, "INDEXED", Part5(), 5);
    Listed(122, "INITIALLY", Part5(), 6);
    Listed(57, "INNER", Part5(), 7);
    Listed(75, "INSERT", Part5(), 8);
    Listed(14, "INSTEAD", Part5(), 9);
    Listed(35, "INTERSECT", Part5(), 10);
  }

  lemma Part6IsThere()
    ensures AllKeywords(Part6())
    ensures Lists(39, Part6()) && Lists(104, Part6()) && Lists(112, Part6()) && Lists(74, Part6())
    ensures Lists(7, Part6()) && Lists(20, Part6()) && Lists(64, Part6()) && Lists(83, Part6())
    ensures Lists(76, Part6()) && Lists(29, Part6()) && Lists(62, Part6())
  {
    hide Is, Lists, IsKeyword;
    Words1();
    Words5();
    Words7();
    Words9();
    Words15();
    Words16();
    Words18();
    Words19();
    Words20();
    Words26();
    Words28();
    Listed(39, "INTO", Part6(), 0);
    Listed(104, "IS", Part6(), 1);
    Listed(112, "ISNULL", Part6(), 2);
    Listed(74, "JOIN", Part6(), 3);
    Listed(7, "KEY", Part6(), 4);
    Listed(20, "LEFT", Part6(), 5);
    Listed(64, "LIKE", Part6(), 6);
    Listed(83, "LIMIT", Part6(), 7);
    Listed(76, "MATCH", Part6(), 8);
    Listed(29, "NATURAL", Part6(), 9);
    Listed(62, "NO", Part6(), 10);
  }

  lemma Part7IsThere()
    ensures AllKeywords(Part7())
    ensures Lists(61, Part7()) && Lists(60, Part7()) && Lists(63, Part7()) && Lists(41, Part7())
    ensures Lists(40, Part7()) && Lists(28, Part7()) && Lists(45, Part7()) && Lists(113, Part7())
    ensures Lists(50, Part7()) && Lists(77, Part7()) && Lists(79, Part7())
  {
    hide Is, Lists, IsKeyword;
    Words7();
    Words10();
    Words11();
    Words12();
    Words15();
    Words19();
    Words28();
    Listed(61, "NOT", Part7(), 0);
    Listed(60, "NOTNULL", Part7(), 1);
    Listed(63, "NULL", Part7(), 2);
    Listed(41, "OF", Part7(), 3);
    Listed(40, "OFFSET", Part7(), 4);
    Listed(28, "ON", Part7(), 5);
    Listed(45, "OR", Part7(), 6);
    Listed(113, "ORDER", Part7(), 7);
    Listed(50, "OUTER", Part7(), 8);
    Listed(77, "PLAN", Part7(), 9);
    Listed(79, "PRAGMA", Part7(), 10);
  }

  lemma Part8IsThere()
    ensures AllKeywords(Part8())
    ensures Lists(101, Part8()) && Lists(47, Part8()) && Lists(31, Part8()) && Lists(58, Part8())
    ensures Lists(37, Part8()) && Lists(12, Part8()) && Lists(0, Part8()) && Lists(51, Part8())
    ensures Lists(86, Part8()) && Lists(88, Part8()) && Lists(114, Part8())
  {
    hide Is, Lists, IsKeyword;
    Words0();
    Words3();
    Words7();
    Words9();
    Words11();
    Words12();
    Words14();
    Words21();
    Words22();
    Words25();
    Words28();
    Listed(101, "PRIMARY", Part8(), 0);
    Listed(47, "QUERY", Part8(), 1);
    Listed(31, "RAISE", Part8(), 2);
    Listed(58, "RECURSIVE", Part8(), 3);
    Listed(37, "REFERENCES", Part8(), 4);
    Listed(12, "REGEXP", Part8(), 5);
    Listed(0, "REINDEX", Part8(), 6);
    Listed(51, "RELEASE", Part8(), 7);
    Listed(86, "RENAME", Part8(), 8);
    Listed(88, "REPLACE", Part8(), 9);
    Listed(114, "RESTRICT", Part8(), 10);
  }

  lemma Part9IsThere()
    ensures AllKeywords(Part9())
    ensures Lists(115, Part9()) && Lists(116, Part9()) && Lists(117, Part9()) && Lists(34, Part9())
    ensures Lists(18, Part9()) && Lists(42, Part9()) && Lists(19, Part9()) && Lists(44, Part9())
    ensures Lists(43, Part9()) && Lists(21, Part9()) && Lists(92, Part9())
  {
    hide Is, Lists, IsKeyword;
    Words4();
    Words5();
    Words8();
    Words10();
    Words11();
    Words23();
    Words28();
    Words29();
    Listed(115, "RIGHT", Part9(), 0);
    Listed(116, "ROLLBACK", Part9(), 1);
    Listed(117, "ROW", Part9(), 2);
    Listed(34, "SAVEPOINT", Part9(), 3);
    Listed(18, "SELECT", Part9(), 4);
    Listed(42, "SET", Part9(), 5);
    Listed(19, "TABLE", Part9(), 6);
    Listed(44, "TEMP", Part9(), 7);
    Listed(43, "TEMPORARY", Part9(), 8);
    Listed(21, "THEN", Part9(), 9);
    Listed(92, "TO", Part9(), 10);
  }

  lemma Part10IsThere()
    ensures AllKeywords(Part10())
    ensures Lists(26, Part10()) && Lists(36, Part10()) && Lists(118, Part10()) && Lists(46, Part10())
    ensures Lists(55, Part10()) && Lists(119, Part10()) && Lists(120, Part10()) && Lists(81, Part10())
    ensures Lists(121, Part10()) && Lists(82, Part10()) && Lists(84, Part10())
  {
    hide Is, Lists, IsKeyword;
    Words6();
    Words9();
    Words11();
    Words13();
    Words20();
    Words21();
    Words29();
    Words30();
    Listed(26, "TRANSACTION", Part10(), 0);
    Listed(36, "TRIGGER", Part10(), 1);
    Listed(118, "UNION", Part10(), 2);
    Listed(46, "UNIQUE", Part10(), 3);
    Listed(55, "UPDATE", Part10(), 4);
    Listed(119, "USING", Part10(), 5);
    Listed(120, "VACUUM", Part10(), 6);
    Listed(81, "VALUES", Part10(), 7);
    Listed(121, "VIEW", Part10(), 8);
    Listed(82, "VIRTUAL", Part10(), 9);
    Listed(84, "WHEN", Part10(), 10);
  }

  lemma Part11IsThere()
    ensures AllKeywords(Part11())
    ensures Lists(85, Part11()) && Lists(49, Part11()) && Lists(48, Part11())
  {
    hide Is, Lists, IsKeyword;
    Words12();
    Words21();
    Listed(85, "WHERE", Part11(), 0);
    Listed(49, "WITH", Part11(), 1);
    Listed(48, "WITHOUT", Part11(), 2);
  }

  predicate Lists(k: nat, az: seq<string>) { k < 124 && Keyword(k) in az }

  predicate AllKeywords(az: seq<string>) { forall i | 0 <= i < |az| :: IsKeyword(az[i]) }

  lemma Listed(k: nat, w: string, az: seq<string>, i: nat)
    requires Is(k, w) && i < |az| && az[i] == w
    ensures Lists(k, az) && IsKeyword(w)
  {
    hide Keyword;
  }

  lemma AllOfBoth(a: seq<string>, b: seq<string>)
    requires AllKeywords(a) && AllKeywords(b)
    ensures AllKeywords(a + b)
  {
    hide IsKeyword;
  }

  lemma ListsMore(k: nat, a: seq<string>, b: seq<string>)
    ensures Lists(k, a) || Lists(k, b) ==> Lists(k, a + b)
  {
    hide Keyword;
  }

  lemma TableIsKeywords()
    ensures AllKeywords(Table())
  {
    hide *;
    Part0IsThere();
    Part1IsThere();
    Part2IsThere();
    Part3IsThere();
    Part4IsThere();
    Part5IsThere();
    Part6IsThere();
    Part7IsThere();
    Part8IsThere();
    Part9IsThere();
    Part10IsThere();
    Part11IsThere();
    AllOfBoth(Part10(), Part11());
    AllOfBoth(Part9(), Part10() + Part11());
    AllOfBoth(Part8(), Part9() + (Part10() + Part11()));
    AllOfBoth(Part7(), Part8() + (Part9() + (Part10() + Part11())));
    AllOfBoth(Part6(), Part7() + (Part8() + (Part9() + (Part10() + Part11()))));
    AllOfBoth(Part5(), Part6() + (Part7() + (Part8() + (Part9() + (Part10() + Part11())))));
    AllOfBoth(Part4(), Part5() + (Part6() + (Part7() + (Part8() + (Part9() + (Part10() + Part11()))))));
    AllOfBoth(Part3(), Part4() + (Part5() + (Part6() + (Part7() + (Part8() + (Part9() + (Part10() + Part11())))))));
    AllOfBoth(Part2(), Part3() + (Part4() + (Part5() + (Part6() + (Part7() + (Part8() + (Part9() + (Part10() + Part11()))))))));
    AllOfBoth(Part1(), Part2() + (Part3() + (Part4() + (Part5() + (Part6() + (Part7() + (Part8() + (Part9() + (Part10() + Part11())))))))));
    AllOfBoth(Part0(), Part1() + (Part2() + (Part3() + (Part4() + (Part5() + (Part6() + (Part7() + (Part8() + (Part9() + (Part10() + Part11()))))))))));
    TableIs();
  }

  lemma TableIs()
    ensures Table() == Part0() + (Part1() + (Part2() + (Part3() + (Part4() + (Part5() + (Part6() + (Part7() + (Part8() + (Part9() + (Part10() + Part11()))))))))))
  {}

  lemma PartsInTable(k: nat)
    requires Lists(k, Part0()) || Lists(k, Part1()) || Lists(k, Part2()) || Lists(k, Part3())
      || Lists(k, Part4()) || Lists(k, Part5()) || Lists(k, Part6()) || Lists(k, Part7())
      || Lists(k, Part8()) || Lists(k, Part9()) || Lists(k, Part10()) || Lists(k, Part11())
    ensures Lists(k, Table())
  {
    hide *;
    ListsMore(k, Part10(), Part11());
    ListsMore(k, Part9(), Part10() + Part11());
    ListsMore(k, Part8(), Part9() + (Part10() + Part11()));
    ListsMore(k, Part7(), Part8() + (Part9() + (Part10() + Part11())));
    ListsMore(k, Part6(), Part7() + (Part8() + (Part9() + (Part10() + Part11()))));
    ListsMore(k, Part5(), Part6() + (Part7() + (Part8() + (Part9() + (Part10() + Part11())))));
    ListsMore(k, Part4(), Part5() + (Part6() + (Part7() + (Part8() + (Part9() + (Part10() + Part11()))))));
    ListsMore(k, Part3(), Part4() + (Part5() + (Part6() + (Part7() + (Part8() + (Part9() + (Part10() + Part11())))))));
    ListsMore(k, Part2(), Part3() + (Part4() + (Part5() + (Part6() + (Part7() + (Part8() + (Part9() + (Part10() + Part11()))))))));
    ListsMore(k, Part1(), Part2() + (Part3() + (Part4() + (Part5() + (Part6() + (Part7() + (Part8() + (Part9() + (Part10() + Part11())))))))));
    ListsMore(k, Part0(), Part1() + (Part2() + (Part3() + (Part4() + (Part5() + (Part6() + (Part7() + (Part8() + (Part9() + (Part10() + Part11()))))))))));
    TableIs();
  }

  lemma Listed0(k: nat)
    requires k < 13
    ensures Lists(k, Table())
  {
    hide *;
    Part1IsThere();
    Part3IsThere();
    Part4IsThere();
    Part5IsThere();
    Part6IsThere();
    Part8IsThere();
    PartsInTable(k);
  }

  lemma Listed1(k: nat)
    requires 13 <= k < 26
    ensures Lists(k, Table())
  {
    hide *;
    Part0IsThere();
    Part2IsThere();
    Part3IsThere();
    Part4IsThere();
    Part5IsThere();
    Part6IsThere();
    Part9IsThere();
    PartsInTable(k);
  }

  lemma Listed2(k: nat)
    requires 26 <= k < 39
    ensures Lists(k, Table())
  {
    hide *;
    Part0IsThere();
    Part2IsThere();
    Part4IsThere();
    Part5IsThere();
    Part6IsThere();
    Part7IsThere();
    Part8IsThere();
    Part9IsThere();
    Part10IsThere();
    PartsInTable(k);
  }

  lemma Listed3(k: nat)
    requires 39 <= k < 52
    ensures Lists(k, Table())
  {
    hide *;
    Part6IsThere();
    Part7IsThere();
    Part8IsThere();
    Part9IsThere();
    Part10IsThere();
    Part11IsThere();
    PartsInTable(k);
  }

  lemma Listed4(k: nat)
    requires 52 <= k < 65
    ensures Lists(k, Table())
  {
    hide *;
    Part0IsThere();
    Part1IsThere();
    Part4IsThere();
    Part5IsThere();
    Part6IsThere();
    Part7IsThere();
    Part8IsThere();
    Part10IsThere();
    PartsInTable(k);
  }

  lemma Listed5(k: nat)
    requires 65 <= k < 78
    ensures Lists(k, Table())
  {
    hide *;
    Part0IsThere();
    Part1IsThere();
    Part2IsThere();
    Part3IsThere();
    Part5IsThere();
    Part6IsThere();
    Part7IsThere();
    PartsInTable(k);
  }

  lemma Listed6(k: nat)
    requires 78 <= k < 91
    ensures Lists(k, Table())
  {
    hide *;
    Part0IsThere();
    Part2IsThere();
    Part6IsThere();
    Part7IsThere();
    Part8IsThere();
    Part10IsThere();
    Part11IsThere();
    PartsInTable(k);
  }

  lemma Listed7(k: nat)
    requires 91 <= k < 104
    ensures Lists(k, Table())
  {
    hide *;
    Part1IsThere();
    Part2IsThere();
    Part3IsThere();
    Part5IsThere();
    Part8IsThere();
    Part9IsThere();
    PartsInTable(k);
  }

  lemma Listed8(k: nat)
    requires 104 <= k < 117
    ensures Lists(k, Table())
  {
    hide *;
    Part1IsThere();
    Part3IsThere();
    Part4IsThere();
    Part5IsThere();
    Part6IsThere();
    Part7IsThere();
    Part8IsThere();
    Part9IsThere();
    PartsInTable(k);
  }

  lemma Listed9(k: nat)
    requires 117 <= k < 124
    ensures Lists(k, Table())
  {
    hide *;
    Part0IsThere();
    Part5IsThere();
    Part9IsThere();
    Part10IsThere();
    PartsInTable(k);
  }

  lemma EveryListed(k: nat)
    requires k < 124
    ensures Keyword(k) in Table()
  {
    hide *;
    if {
    case k < 13 => Listed0(k);
    case 13 <= k < 26 => Listed1(k);
    case 26 <= k < 39 => Listed2(k);
    case 39 <= k < 52 => Listed3(k);
    case 52 <= k < 65 => Listed4(k);
    case 65 <= k < 78 => Listed5(k);
    case 78 <= k < 91 => Listed6(k);
    case 91 <= k < 104 => Listed7(k);
    case 104 <= k < 117 => Listed8(k);
    case 117 <= k < 124 => Listed9(k);
    }
    ListsTable(k);
  }

  lemma ListsTable(k: nat)
    requires Lists(k, Table())
    ensures k < 124 && Keyword(k) in Table()
  {
    hide Keyword, Table;
  }
}
