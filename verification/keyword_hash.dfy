/** The hash finds every keyword, so the shell quotes the names that the library would take for one. */
module KeywordHash {
  import opened Chars
  import opened ShellText
  import opened Keywords
  import opened KeywordTables
  import opened KeywordWords

  // ---- The hash ----

  /** `c & ~0x20`: among letters, the capital. */
  function Fold(c: char): (f: char) { if c as int / 32 % 2 == 1 then c - 32 as char else c }

  function Folded(z: string): (f: string) { seq(|z|, i requires 0 <= i < |z| => Fold(z[i])) }

  /** A name as the tokenizer has it: bytes, and no more of them than an int counts. */
  ghost predicate Sized(z: string) { |z| < 0x8000_0000 && forall i | 0 <= i < |z| :: z[i] as int < 256 }

  /** The hash, of four times the first byte, three times the last, and the length. */
  function Mixed(a: bv32, b: bv32, n: bv32): (h: nat)
    ensures h < 127
  {
    (a ^ b ^ n) as nat % 127
  }

  function Word32(n: nat): (b: bv32)
    requires n < 0x8000_0000
  {
    n as bv32
  }

  function Home(z: string): (h: nat)
    requires 2 <= |z| && Sized(z)
    ensures h < 127
  {
    Mixed(Word32(4 * Lower(z[0]) as int), Word32(3 * Lower(z[|z| - 1]) as int), Word32(|z|))
  }

  /** The chain that begins at place `i`, counted from one, comes to place `k`. */
  predicate Chain(i: nat, k: nat)
    requires i <= 124
    decreases i
  {
    i != 0 && (i - 1 == k || Chain(At(i - 1).next, k))
  }

  lemma Here(k: nat)
    requires k < 124
    ensures Chain(k + 1, k)
  {}

  lemma Further(i: nat, k: nat)
    requires i < 124 && Chain(At(i).next, k)
    ensures Chain(i + 1, k)
  {
    hide At;
  }

  /** Every spelling of the keyword at `k` is hashed to a chain that comes to `k`. */
  ghost predicate Found(k: nat) {
    k < 124 && forall z: string | 2 <= |z| && Sized(z) && Folded(z) == Keyword(k) :: Chain(Bucket(Home(z)), k)
  }

  lemma CodeOfFold(c: char)
    requires c as int < 256 && 'A' <= Fold(c) <= 'Z'
    ensures Lower(c) == Fold(c) + 32 as char
  {}

  predicate IsWord32(b: bv32, n: nat) { b as nat == n }

  lemma Back(b: bv32, n: nat)
    requires IsWord32(b, n) && n < 0x8000_0000
    ensures Word32(n) == b
  {}

  lemma InChain(k: nat, w: string, u: bv32, v: bv32, n: bv32, i: nat)
    requires Is(k, w) && |w| >= 2 && 'A' <= w[0] <= 'Z' && 'A' <= w[|w| - 1] <= 'Z' && |w| < 0x8000_0000
    requires IsWord32(u, 4 * (w[0] as int + 32)) && IsWord32(v, 3 * (w[|w| - 1] as int + 32)) && IsWord32(n, |w|)
    requires i <= 124 && Bucket(Mixed(u, v, n)) == i && Chain(i, k)
    ensures Found(k)
  {
    hide Mixed, Bucket, Chain, Keyword, IsWord32, Word32;
    forall z: string | 2 <= |z| && Sized(z) && Folded(z) == Keyword(k) ensures Chain(Bucket(Home(z)), k) {
      HomeOf(z, w);
      Back(u, 4 * (w[0] as int + 32));
      Back(v, 3 * (w[|w| - 1] as int + 32));
      Back(n, |w|);
    }
  }

  lemma HomeOf(z: string, w: string)
    requires Folded(z) == w && |w| >= 2 && Sized(z) && 'A' <= w[0] <= 'Z' && 'A' <= w[|w| - 1] <= 'Z'
    ensures Home(z) == Mixed(Word32(4 * (w[0] as int + 32)), Word32(3 * (w[|w| - 1] as int + 32)), Word32(|w|))
  {
    hide Mixed, Fold, Lower, Word32;
    assert w[0] == Fold(z[0]) && w[|w| - 1] == Fold(z[|z| - 1]) && |w| == |z|;
    CodeOfFold(z[0]);
    CodeOfFold(z[|z| - 1]);
  }

  lemma Buckets0()
    ensures Bucket(0) == 76 && Bucket(1) == 105 && Bucket(2) == 117 && Bucket(3) == 74
    ensures Bucket(5) == 45 && Bucket(8) == 82 && Bucket(10) == 77
  {}

  lemma Buckets1()
    ensures Bucket(13) == 42 && Bucket(14) == 12 && Bucket(15) == 78 && Bucket(16) == 15
    ensures Bucket(18) == 116 && Bucket(19) == 85 && Bucket(20) == 54 && Bucket(21) == 112
    ensures Bucket(23) == 19
  {}

  lemma Buckets2()
    ensures Bucket(26) == 121 && Bucket(28) == 119 && Bucket(29) == 115 && Bucket(31) == 22
    ensures Bucket(32) == 93 && Bucket(34) == 9 && Bucket(37) == 70 && Bucket(38) == 71
  {}

  lemma Buckets3()
    ensures Bucket(40) == 69 && Bucket(41) == 6 && Bucket(43) == 48 && Bucket(44) == 90
    ensures Bucket(45) == 102 && Bucket(47) == 118 && Bucket(48) == 101 && Bucket(51) == 44
  {}

  lemma Buckets4()
    ensures Bucket(53) == 103 && Bucket(54) == 24 && Bucket(56) == 17 && Bucket(58) == 122
    ensures Bucket(59) == 53 && Bucket(60) == 23 && Bucket(62) == 5 && Bucket(63) == 110
    ensures Bucket(64) == 25
  {}

  lemma Buckets5()
    ensures Bucket(65) == 96 && Bucket(68) == 124 && Bucket(69) == 106 && Bucket(70) == 60
    ensures Bucket(71) == 123 && Bucket(72) == 57 && Bucket(73) == 28 && Bucket(74) == 55
    ensures Bucket(76) == 91
  {}

  lemma Buckets6()
    ensures Bucket(78) == 100 && Bucket(79) == 26 && Bucket(81) == 99 && Bucket(85) == 95
    ensures Bucket(86) == 92 && Bucket(87) == 97 && Bucket(88) == 88 && Bucket(89) == 109
    ensures Bucket(90) == 14
  {}

  lemma Buckets7()
    ensures Bucket(91) == 39 && Bucket(92) == 108 && Bucket(94) == 81 && Bucket(96) == 18
    ensures Bucket(97) == 89 && Bucket(98) == 111 && Bucket(99) == 32 && Bucket(101) == 120
    ensures Bucket(102) == 80 && Bucket(103) == 113
  {}

  lemma Buckets8()
    ensures Bucket(104) == 62 && Bucket(105) == 46 && Bucket(106) == 84 && Bucket(109) == 94
    ensures Bucket(110) == 40 && Bucket(111) == 59 && Bucket(112) == 114 && Bucket(114) == 36
  {}

  lemma Buckets9()
    ensures Bucket(117) == 29 && Bucket(119) == 86 && Bucket(120) == 63 && Bucket(121) == 64
    ensures Bucket(123) == 20 && Bucket(124) == 61 && Bucket(126) == 56
  {}

  lemma Found0()
    ensures Found(0) && Found(1) && Found(2) && Found(3) && Found(4) && Found(5) && Found(6) && Found(7)
      && Found(8) && Found(9) && Found(10) && Found(11) && Found(12) && Found(13) && Found(14) && Found(15)
  {
    hide Is, Found, Chain, Bucket, At, Fits, Fold;
    Words0();
    Words1();
    Words2();
    Words3();
    Buckets1();
    Buckets2();
    Buckets3();
    Buckets4();
    Buckets5();
    Buckets6();
    At0();
    At1();
    At2();
    At4();
    At5();
    At6();
    At7();
    At8();
    Here(0);
    Further(68, 0);
    assert Mixed(456, 360, 7) == 40;
    InChain(0, "REINDEX", 456, 360, 7, 69);
    Here(1);
    Further(14, 1);
    assert Mixed(420, 300, 7) == 16;
    InChain(1, "INDEXED", 420, 300, 7, 15);
    Here(2);
    Further(54, 2);
    assert Mixed(420, 360, 5) == 74;
    InChain(2, "INDEX", 420, 360, 5, 55);
    Here(3);
    Further(4, 3);
    assert Mixed(400, 297, 4) == 62;
    InChain(3, "DESC", 400, 297, 4, 5);
    Here(4);
    assert Mixed(404, 303, 6) == 62;
    InChain(4, "ESCAPE", 404, 303, 6, 5);
    Here(5);
    assert Mixed(404, 312, 4) == 41;
    InChain(5, "EACH", 404, 312, 4, 6);
    Here(6);
    Further(27, 6);
    assert Mixed(396, 321, 5) == 73;
    InChain(6, "CHECK", 396, 321, 5, 28);
    Here(7);
    Further(103, 7);
    Further(105, 7);
    assert Mixed(428, 363, 3) == 69;
    InChain(7, "KEY", 428, 363, 3, 106);
    Here(8);
    assert Mixed(392, 303, 6) == 34;
    InChain(8, "BEFORE", 392, 303, 6, 9);
    Here(9);
    Further(91, 9);
    assert Mixed(408, 330, 7) == 86;
    InChain(9, "FOREIGN", 408, 330, 7, 92);
    Here(10);
    Further(99, 10);
    assert Mixed(408, 342, 3) == 78;
    InChain(10, "FOR", 408, 342, 3, 100);
    Here(11);
    assert Mixed(420, 303, 6) == 14;
    InChain(11, "IGNORE", 420, 303, 6, 12);
    Here(12);
    Further(21, 12);
    assert Mixed(456, 336, 6) == 31;
    InChain(12, "REGEXP", 456, 336, 6, 22);
    Here(13);
    assert Mixed(404, 330, 7) == 90;
    InChain(13, "EXPLAIN", 404, 330, 7, 14);
    Here(14);
    assert Mixed(420, 300, 7) == 16;
    InChain(14, "INSTEAD", 420, 300, 7, 15);
    Here(15);
    Further(89, 15);
    assert Mixed(388, 300, 3) == 44;
    InChain(15, "ADD", 388, 300, 3, 90);
  }

  lemma Found1()
    ensures Found(16) && Found(17) && Found(18) && Found(19) && Found(20) && Found(21) && Found(22) && Found(23)
      && Found(24) && Found(25) && Found(26) && Found(27) && Found(28) && Found(29) && Found(30) && Found(31)
  {
    hide Is, Found, Chain, Bucket, At, Fits, Fold;
    Words4();
    Words5();
    Words6();
    Words7();
    Buckets1();
    Buckets2();
    Buckets4();
    Buckets5();
    Buckets6();
    Buckets7();
    Buckets8();
    Buckets9();
    At3();
    At4();
    At6();
    At8();
    Here(16);
    assert Mixed(400, 303, 8) == 56;
    InChain(16, "DATABASE", 400, 303, 8, 17);
    Here(17);
    assert Mixed(388, 345, 2) == 96;
    InChain(17, "AS", 388, 345, 2, 18);
    Here(18);
    assert Mixed(460, 348, 6) == 23;
    InChain(18, "SELECT", 460, 348, 6, 19);
    Here(19);
    assert Mixed(464, 303, 5) == 123;
    InChain(19, "TABLE", 464, 303, 5, 20);
    Here(20);
    Further(45, 20);
    assert Mixed(432, 348, 4) == 105;
    InChain(20, "LEFT", 432, 348, 4, 46);
    Here(21);
    assert Mixed(464, 330, 4) == 31;
    InChain(21, "THEN", 464, 330, 4, 22);
    Here(22);
    assert Mixed(404, 300, 3) == 60;
    InChain(22, "END", 404, 300, 3, 23);
    Here(23);
    assert Mixed(400, 303, 10) == 54;
    InChain(23, "DEFERRABLE", 400, 303, 10, 24);
    Here(24);
    assert Mixed(404, 303, 4) == 64;
    InChain(24, "ELSE", 404, 303, 4, 25);
    Here(25);
    assert Mixed(404, 348, 6) == 79;
    InChain(25, "EXCEPT", 404, 348, 6, 26);
    Here(26);
    Further(115, 26);
    assert Mixed(464, 330, 11) == 18;
    InChain(26, "TRANSACTION", 464, 330, 11, 116);
    Here(27);
    assert Mixed(388, 330, 6) == 73;
    InChain(27, "ACTION", 388, 330, 6, 28);
    Here(28);
    assert Mixed(444, 330, 2) == 117;
    InChain(28, "ON", 444, 330, 2, 29);
    Here(29);
    Further(60, 29);
    assert Mixed(440, 324, 7) == 124;
    InChain(29, "NATURAL", 440, 324, 7, 61);
    Here(30);
    Further(87, 30);
    assert Mixed(388, 342, 5) == 88;
    InChain(30, "ALTER", 388, 342, 5, 88);
    Here(31);
    assert Mixed(456, 303, 5) == 99;
    InChain(31, "RAISE", 456, 303, 5, 32);
  }

  lemma Found2()
    ensures Found(32) && Found(33) && Found(34) && Found(35) && Found(36) && Found(37) && Found(38) && Found(39)
      && Found(40) && Found(41) && Found(42) && Found(43) && Found(44) && Found(45) && Found(46) && Found(47)
  {
    hide Is, Found, Chain, Bucket, At, Fits, Fold;
    Words8();
    Words9();
    Words10();
    Words11();
    Buckets0();
    Buckets1();
    Buckets2();
    Buckets3();
    Buckets5();
    Buckets7();
    Buckets8();
    Buckets9();
    At3();
    At4();
    At5();
    At6();
    At8();
    At9();
    Here(32);
    Further(43, 32);
    assert Mixed(404, 303, 9) == 51;
    InChain(32, "EXCLUSIVE", 404, 303, 9, 44);
    Here(33);
    Further(90, 33);
    assert Mixed(404, 345, 6) == 76;
    InChain(33, "EXISTS", 404, 345, 6, 91);
    Here(34);
    Further(120, 34);
    assert Mixed(460, 348, 9) == 26;
    InChain(34, "SAVEPOINT", 460, 348, 9, 121);
    Here(35);
    assert Mixed(420, 348, 9) == 114;
    InChain(35, "INTERSECT", 420, 348, 9, 36);
    Here(36);
    Further(116, 36);
    assert Mixed(464, 342, 7) == 2;
    InChain(36, "TRIGGER", 464, 342, 7, 117);
    Here(37);
    Further(64, 37);
    Further(82, 37);
    Further(118, 37);
    assert Mixed(456, 345, 10) == 28;
    InChain(37, "REFERENCES", 456, 345, 10, 119);
    Here(38);
    assert Mixed(396, 348, 10) == 91;
    InChain(38, "CONSTRAINT", 396, 348, 10, 39);
    Here(39);
    assert Mixed(420, 333, 4) == 110;
    InChain(39, "INTO", 420, 333, 4, 40);
    Here(40);
    Further(74, 40);
    Further(112, 40);
    assert Mixed(444, 348, 6) == 103;
    InChain(40, "OFFSET", 444, 348, 6, 113);
    Here(41);
    assert Mixed(444, 306, 2) == 13;
    InChain(41, "OF", 444, 306, 2, 42);
    Here(42);
    Further(53, 42);
    assert Mixed(460, 348, 3) == 20;
    InChain(42, "SET", 460, 348, 3, 54);
    Here(43);
    assert Mixed(464, 363, 9) == 51;
    InChain(43, "TEMPORARY", 464, 363, 9, 44);
    Here(44);
    assert Mixed(464, 336, 4) == 5;
    InChain(44, "TEMP", 464, 336, 4, 45);
    Here(45);
    assert Mixed(444, 342, 2) == 105;
    InChain(45, "OR", 444, 342, 2, 46);
    Here(46);
    Further(55, 46);
    assert Mixed(468, 303, 6) == 126;
    InChain(46, "UNIQUE", 468, 303, 6, 56);
    Here(47);
    assert Mixed(452, 363, 5) == 43;
    InChain(47, "QUERY", 452, 363, 5, 48);
  }

  lemma Found3()
    ensures Found(48) && Found(49) && Found(50) && Found(51) && Found(52) && Found(53) && Found(54) && Found(55)
      && Found(56) && Found(57) && Found(58) && Found(59) && Found(60) && Found(61) && Found(62) && Found(63)
  {
    hide Is, Found, Chain, Bucket, At, Fits, Fold;
    Words12();
    Words13();
    Words14();
    Words15();
    Buckets0();
    Buckets1();
    Buckets4();
    Buckets5();
    Buckets7();
    Buckets8();
    Buckets9();
    At3();
    At4();
    At6();
    At8();
    Here(48);
    Further(81, 48);
    assert Mixed(476, 348, 7) == 8;
    InChain(48, "WITHOUT", 476, 348, 7, 82);
    Here(49);
    Further(51, 49);
    Further(88, 49);
    assert Mixed(476, 312, 4) == 97;
    InChain(49, "WITH", 476, 312, 4, 89);
    Here(50);
    Further(113, 50);
    assert Mixed(444, 342, 5) == 112;
    InChain(50, "OUTER", 444, 342, 5, 114);
    Here(51);
    Further(88, 51);
    assert Mixed(456, 303, 7) == 97;
    InChain(51, "RELEASE", 456, 303, 7, 89);
    Here(52);
    assert Mixed(388, 312, 6) == 59;
    InChain(52, "ATTACH", 388, 312, 6, 53);
    Here(53);
    assert Mixed(416, 309, 6) == 20;
    InChain(53, "HAVING", 416, 309, 6, 54);
    Here(54);
    assert Mixed(412, 336, 5) == 74;
    InChain(54, "GROUP", 412, 336, 5, 55);
    Here(55);
    assert Mixed(468, 303, 6) == 126;
    InChain(55, "UPDATE", 468, 303, 6, 56);
    Here(56);
    assert Mixed(392, 330, 5) == 72;
    InChain(56, "BEGIN", 392, 330, 5, 57);
    Here(57);
    Further(62, 57);
    assert Mixed(420, 342, 5) == 120;
    InChain(57, "INNER", 420, 342, 5, 63);
    Here(58);
    assert Mixed(456, 303, 9) == 111;
    InChain(58, "RECURSIVE", 456, 303, 9, 59);
    Here(59);
    assert Mixed(392, 330, 7) == 70;
    InChain(59, "BETWEEN", 392, 330, 7, 60);
    Here(60);
    assert Mixed(440, 324, 7) == 124;
    InChain(60, "NOTNULL", 440, 324, 7, 61);
    Here(61);
    assert Mixed(440, 348, 3) == 104;
    InChain(61, "NOT", 440, 348, 3, 62);
    Here(62);
    assert Mixed(440, 333, 2) == 120;
    InChain(62, "NO", 440, 333, 2, 63);
    Here(63);
    assert Mixed(440, 324, 4) == 121;
    InChain(63, "NULL", 440, 324, 4, 64);
  }

  lemma Found4()
    ensures Found(64) && Found(65) && Found(66) && Found(67) && Found(68) && Found(69) && Found(70) && Found(71)
      && Found(72) && Found(73) && Found(74) && Found(75) && Found(76) && Found(77) && Found(78) && Found(79)
  {
    hide Is, Found, Chain, Bucket, At, Fits, Fold;
    Words16();
    Words17();
    Words18();
    Words19();
    Buckets0();
    Buckets1();
    Buckets2();
    Buckets3();
    Buckets4();
    Buckets7();
    At5();
    At6();
    At7();
    At8();
    At9();
    Here(64);
    Further(82, 64);
    Further(118, 64);
    assert Mixed(432, 303, 4) == 28;
    InChain(64, "LIKE", 432, 303, 4, 119);
    Here(65);
    Further(69, 65);
    assert Mixed(396, 303, 7) == 37;
    InChain(65, "CASCADE", 396, 303, 7, 70);
    Here(66);
    Further(72, 66);
    Further(117, 66);
    assert Mixed(388, 297, 3) == 47;
    InChain(66, "ASC", 388, 297, 3, 118);
    Here(67);
    Further(121, 67);
    assert Mixed(400, 303, 6) == 58;
    InChain(67, "DELETE", 400, 303, 6, 122);
    Here(68);
    assert Mixed(396, 303, 4) == 40;
    InChain(68, "CASE", 396, 303, 4, 69);
    Here(69);
    assert Mixed(396, 303, 7) == 37;
    InChain(69, "COLLATE", 396, 303, 7, 70);
    Here(70);
    assert Mixed(396, 303, 6) == 38;
    InChain(70, "CREATE", 396, 303, 6, 71);
    Here(71);
    Further(100, 71);
    assert Mixed(396, 303, 12) == 48;
    InChain(71, "CURRENT_DATE", 396, 303, 12, 101);
    Here(72);
    Further(117, 72);
    assert Mixed(400, 312, 6) == 47;
    InChain(72, "DETACH", 400, 312, 6, 118);
    Here(73);
    assert Mixed(420, 303, 9) == 3;
    InChain(73, "IMMEDIATE", 420, 303, 9, 74);
    Here(74);
    Further(112, 74);
    assert Mixed(424, 330, 4) == 103;
    InChain(74, "JOIN", 424, 330, 4, 113);
    Here(75);
    assert Mixed(420, 348, 6) == 0;
    InChain(75, "INSERT", 420, 348, 6, 76);
    Here(76);
    assert Mixed(436, 312, 5) == 10;
    InChain(76, "MATCH", 436, 312, 5, 77);
    Here(77);
    assert Mixed(448, 330, 4) == 15;
    InChain(77, "PLAN", 448, 330, 4, 78);
    Here(78);
    Further(101, 78);
    assert Mixed(388, 303, 7) == 45;
    InChain(78, "ANALYZE", 388, 303, 7, 102);
    Here(79);
    assert Mixed(448, 291, 6) == 102;
    InChain(79, "PRAGMA", 448, 291, 6, 80);
  }

  lemma Found5()
    ensures Found(80) && Found(81) && Found(82) && Found(83) && Found(84) && Found(85) && Found(86) && Found(87)
      && Found(88) && Found(89) && Found(90) && Found(91) && Found(92) && Found(93) && Found(94) && Found(95)
  {
    hide Is, Found, Chain, Bucket, At, Fits, Fold;
    Words20();
    Words21();
    Words22();
    Words23();
    Buckets0();
    Buckets1();
    Buckets2();
    Buckets3();
    Buckets5();
    Buckets6();
    Buckets7();
    Buckets8();
    Buckets9();
    At8();
    At9();
    Here(80);
    assert Mixed(388, 348, 5) == 94;
    InChain(80, "ABORT", 388, 348, 5, 81);
    Here(81);
    assert Mixed(472, 345, 6) == 8;
    InChain(81, "VALUES", 472, 345, 6, 82);
    Here(82);
    Further(118, 82);
    assert Mixed(472, 324, 7) == 28;
    InChain(82, "VIRTUAL", 472, 324, 7, 119);
    Here(83);
    assert Mixed(432, 348, 5) == 106;
    InChain(83, "LIMIT", 432, 348, 5, 84);
    Here(84);
    assert Mixed(476, 330, 4) == 19;
    InChain(84, "WHEN", 476, 330, 4, 85);
    Here(85);
    assert Mixed(476, 303, 5) == 119;
    InChain(85, "WHERE", 476, 303, 5, 86);
    Here(86);
    Further(110, 86);
    assert Mixed(456, 303, 6) == 98;
    InChain(86, "RENAME", 456, 303, 6, 111);
    Here(87);
    assert Mixed(388, 342, 5) == 88;
    InChain(87, "AFTER", 388, 342, 5, 88);
    Here(88);
    assert Mixed(456, 303, 7) == 97;
    InChain(88, "REPLACE", 456, 303, 7, 89);
    Here(89);
    assert Mixed(388, 300, 3) == 44;
    InChain(89, "AND", 388, 300, 3, 90);
    Here(90);
    assert Mixed(400, 348, 7) == 76;
    InChain(90, "DEFAULT", 400, 348, 7, 91);
    Here(91);
    assert Mixed(388, 348, 13) == 86;
    InChain(91, "AUTOINCREMENT", 388, 348, 13, 92);
    Here(92);
    assert Mixed(464, 333, 2) == 32;
    InChain(92, "TO", 464, 333, 2, 93);
    Here(93);
    assert Mixed(420, 330, 2) == 109;
    InChain(93, "IN", 420, 330, 2, 94);
    Here(94);
    assert Mixed(396, 348, 4) == 85;
    InChain(94, "CAST", 396, 348, 4, 95);
    Here(95);
    assert Mixed(396, 330, 6) == 65;
    InChain(95, "COLUMN", 396, 330, 6, 96);
  }

  lemma Found6()
    ensures Found(96) && Found(97) && Found(98) && Found(99) && Found(100) && Found(101) && Found(102) && Found(103)
      && Found(104) && Found(105) && Found(106) && Found(107) && Found(108) && Found(109) && Found(110) && Found(111)
  {
    hide Is, Found, Chain, Bucket, At, Fits, Fold;
    Words24();
    Words25();
    Words26();
    Words27();
    Buckets0();
    Buckets1();
    Buckets3();
    Buckets4();
    Buckets5();
    Buckets6();
    Buckets7();
    At8();
    Here(96);
    assert Mixed(396, 348, 6) == 87;
    InChain(96, "COMMIT", 396, 348, 6, 97);
    Here(97);
    Further(106, 97);
    Further(108, 97);
    assert Mixed(396, 348, 8) == 89;
    InChain(97, "CONFLICT", 396, 348, 8, 109);
    Here(98);
    assert Mixed(396, 345, 5) == 81;
    InChain(98, "CROSS", 396, 345, 5, 99);
    Here(99);
    assert Mixed(396, 336, 17) == 78;
    InChain(99, "CURRENT_TIMESTAMP", 396, 336, 17, 100);
    Here(100);
    assert Mixed(396, 303, 12) == 48;
    InChain(100, "CURRENT_TIME", 396, 303, 12, 101);
    Here(101);
    assert Mixed(448, 363, 7) == 45;
    InChain(101, "PRIMARY", 448, 363, 7, 102);
    Here(102);
    assert Mixed(400, 300, 8) == 53;
    InChain(102, "DEFERRED", 400, 300, 8, 103);
    Here(103);
    Further(105, 103);
    assert Mixed(400, 348, 8) == 69;
    InChain(103, "DISTINCT", 400, 348, 8, 106);
    Here(104);
    assert Mixed(420, 345, 2) == 1;
    InChain(104, "IS", 420, 345, 2, 105);
    Here(105);
    assert Mixed(400, 336, 4) == 69;
    InChain(105, "DROP", 400, 336, 4, 106);
    Here(106);
    Further(108, 106);
    assert Mixed(408, 324, 4) == 89;
    InChain(106, "FAIL", 408, 324, 4, 109);
    Here(107);
    assert Mixed(408, 327, 4) == 92;
    InChain(107, "FROM", 408, 327, 4, 108);
    Here(108);
    assert Mixed(408, 324, 4) == 89;
    InChain(108, "FULL", 408, 324, 4, 109);
    Here(109);
    assert Mixed(412, 294, 4) == 63;
    InChain(109, "GLOB", 412, 294, 4, 110);
    Here(110);
    assert Mixed(392, 363, 2) == 98;
    InChain(110, "BY", 392, 363, 2, 111);
    Here(111);
    assert Mixed(420, 306, 2) == 21;
    InChain(111, "IF", 420, 306, 2, 112);
  }

  lemma Found7()
    ensures Found(112) && Found(113) && Found(114) && Found(115) && Found(116) && Found(117) && Found(118) && Found(119)
      && Found(120) && Found(121) && Found(122) && Found(123)
  {
    hide Is, Found, Chain, Bucket, At, Fits, Fold;
    Words28();
    Words29();
    Words30();
    Buckets0();
    Buckets1();
    Buckets2();
    Buckets3();
    Buckets4();
    Buckets5();
    Buckets7();
    Buckets8();
    Here(112);
    assert Mixed(420, 324, 6) == 103;
    InChain(112, "ISNULL", 420, 324, 6, 113);
    Here(113);
    assert Mixed(444, 342, 5) == 112;
    InChain(113, "ORDER", 444, 342, 5, 114);
    Here(114);
    assert Mixed(456, 348, 8) == 29;
    InChain(114, "RESTRICT", 456, 348, 8, 115);
    Here(115);
    assert Mixed(456, 348, 5) == 18;
    InChain(115, "RIGHT", 456, 348, 5, 116);
    Here(116);
    assert Mixed(456, 321, 8) == 2;
    InChain(116, "ROLLBACK", 456, 321, 8, 117);
    Here(117);
    assert Mixed(456, 357, 3) == 47;
    InChain(117, "ROW", 456, 357, 3, 118);
    Here(118);
    assert Mixed(468, 330, 5) == 28;
    InChain(118, "UNION", 468, 330, 5, 119);
    Here(119);
    assert Mixed(468, 309, 5) == 101;
    InChain(119, "USING", 468, 309, 5, 120);
    Here(120);
    assert Mixed(472, 327, 6) == 26;
    InChain(120, "VACUUM", 472, 327, 6, 121);
    Here(121);
    assert Mixed(472, 357, 4) == 58;
    InChain(121, "VIEW", 472, 357, 4, 122);
    Here(122);
    assert Mixed(420, 363, 9) == 71;
    InChain(122, "INITIALLY", 420, 363, 9, 123);
    Here(123);
    assert Mixed(388, 324, 3) == 68;
    InChain(123, "ALL", 388, 324, 3, 124);
  }

  /** The hash finds every keyword. */
  lemma AllFound(k: nat)
    requires k < 124
    ensures Found(k)
  {
    hide *;
    Found0();
    Found1();
    Found2();
    Found3();
    Found4();
    Found5();
    Found6();
    Found7();
  }

  /** keywordCode(): the place of the keyword that the text spells, or -1. */
  method KeywordCode(z: string) returns (i: int)
    requires Sized(z)
    ensures i == -1 <==> !IsKeyword(Folded(z))
    ensures i != -1 ==> 0 <= i < 124 && Keyword(i) == Folded(z)
  {
    hide Keyword, Chain, Home, Bucket, At, Fits;
    if |z| < 2 {
      TooShort(z);
      return -1;
    }
    i := Bucket(Home(z)) - 1;
    forall k: nat | k < 124 && Keyword(k) == Folded(z) ensures Chain(i + 1, k) {
      AllFound(k);
    }
    while i >= 0
      invariant -1 <= i < 124
      invariant forall k: nat | k < 124 && Keyword(k) == Folded(z) :: Chain(i + 1, k)
      decreases i
    {
      NextIsLower(i);
      if At(i).len == |z| {
        var same := Spells(z, i);
        if same {
          return;
        }
      }
      forall k: nat | k < 124 && Keyword(k) == Folded(z) ensures Chain(At(i).next, k) {
        ChainGoesOn(i, k);
      }
      i := At(i).next - 1;
    }
    forall k: nat | k < 124 ensures Keyword(k) != Folded(z) {
      NoChain(k);
    }
  }

  lemma TooShort(z: string)
    requires |z| < 2
    ensures !IsKeyword(Folded(z))
  {
    hide At;
  }

  lemma NextIsLower(k: nat)
    requires k < 124
    ensures At(k).next <= k && At(k).offset + At(k).len <= 553
  {
    hide At;
  }

  lemma ChainGoesOn(i: nat, k: nat)
    requires i < 124 && Chain(i + 1, k) && i != k
    ensures Chain(At(i).next, k)
  {
    hide At;
  }

  lemma NoChain(k: nat)
    ensures !Chain(0, k)
  {}

  /** The comparison of the text with the keyword at place `i`, byte by byte. */
  method Spells(z: string, i: nat) returns (same: bool)
    requires i < 124 && At(i).len == |z|
    ensures same <==> Keyword(i) == Folded(z)
  {
    hide At, Fits, Fold, Keyword, Folded, TextAt;
    NextIsLower(i);
    var j := 0;
    SpellsByte(z, i);
    while j < |z| && Fold(z[j]) == TextAt(At(i).offset + j)
      invariant j <= |z| && forall k | 0 <= k < j :: Keyword(i)[k] == Folded(z)[k]
    {
      j := j + 1;
    }
    same := j == |z|;
    assert !same ==> Keyword(i)[j] != Folded(z)[j];
  }

  lemma KeywordByte(k: nat, j: nat)
    requires k < 124 && j < At(k).len && At(k).offset + j < 553
    ensures Keyword(k)[j] == TextAt(At(k).offset + j)
  {
    hide At, TextAt, Fits;
  }

  lemma SpellsByte(z: string, i: nat)
    requires i < 124 && At(i).len == |z|
    ensures |Keyword(i)| == |Folded(z)| == |z| && At(i).offset + |z| <= 553
    ensures forall j | 0 <= j < |z| :: Keyword(i)[j] == TextAt(At(i).offset + j) && Folded(z)[j] == Fold(z[j])
  {
    NextIsLower(i);
    hide At, Fold, TextAt, Fits, Keyword;
    forall j | 0 <= j < |z| ensures Keyword(i)[j] == TextAt(At(i).offset + j) {
      KeywordByte(i, j);
    }
  }

  // ---- The shell's table beside it ----

  lemma KeywordIsCapital(k: nat)
    requires k < 124
    ensures forall j | 0 <= j < |Keyword(k)| :: Capital(Keyword(k)[j])
  {
    NextIsLower(k);
    hide *;
    forall j | 0 <= j < |Keyword(k)| ensures Capital(Keyword(k)[j]) {
      KeywordByte(k, j);
    }
  }

  /** A word spells a text of capitals exactly if it is that text folded. */
  lemma SameIsFolded(u: string, w: string)
    requires IsWord(w) && forall j | 0 <= j < |u| :: Capital(u[j])
    ensures SameWord(u, w) <==> u == Folded(w)
  {
    forall j | 0 <= j < |u| && j < |w| ensures Lower(u[j]) == Lower(w[j]) <==> u[j] == Fold(w[j]) {
      assert IsWordByte(w[j]);
    }
    if SameWord(u, w) {
      assert forall j | 0 <= j < |u| :: u[j] == Folded(w)[j];
    }
  }

  /** A word is in the shell's table, in any case, exactly if it spells a keyword of the library. */
  lemma ReservedIsKeyword(w: string)
    requires IsWord(w)
    ensures Reserved(Table(), w) <==> IsKeyword(Folded(w))
  {
    hide Table, Keyword, Folded, SameWord, IsWord;
    TableIsKeywords();
    if i :| 0 <= i < |Table()| && SameWord(Table()[i], w) {
      assert IsKeyword(Table()[i]);
      var k: nat :| k < 124 && Keyword(k) == Table()[i];
      KeywordIsCapital(k);
      SameIsFolded(Table()[i], w);
    }
    if k: nat :| k < 124 && Keyword(k) == Folded(w) {
      EveryListed(k);
      KeywordIsCapital(k);
      SameIsFolded(Keyword(k), w);
      var i :| 0 <= i < |Table()| && Table()[i] == Keyword(k);
      assert SameWord(Table()[i], w);
    }
  }

  /** The two on one name: the shell leaves it bare exactly if it is a word and the library's hash finds no
      keyword. */
  method NameAgainstLibrary(zName: string) returns (quote: char, code: int)
    requires Sized(zName)
    ensures quote == NUL || quote == '"'
    ensures quote == NUL <==> IsWord(zName) && code == -1
    ensures code == -1 <==> !IsKeyword(Folded(zName))
  {
    hide StandsAlone, IsKeyword, IsWord, Reserved, Table, Keyword;
    quote := Keywords.QuoteName(zName);
    code := KeywordCode(zName);
    Alone(zName);
  }

  lemma Alone(w: string)
    ensures StandsAlone(Table(), w) <==> IsWord(w) && !IsKeyword(Folded(w))
  {
    hide IsWord, IsKeyword, Table, Reserved;
    if IsWord(w) {
      ReservedIsKeyword(w);
    }
  }

  /** Names are read back by a parser, whatever words it takes for names, exactly if it takes every word
      that is no keyword of the library. */
  lemma NamesAreRead(isName: string -> bool)
    ensures ReadsNames(Table(), isName) <==> forall w: string | IsWord(w) && !IsKeyword(Folded(w)) :: isName(w)
  {
    hide Table, IsKeyword, Folded, IsWord, Reserved, ReadsNames;
    TableMustCover(Table(), isName);
    forall w: string | IsWord(w) ensures Reserved(Table(), w) <==> IsKeyword(Folded(w)) {
      ReservedIsKeyword(w);
    }
  }
}
