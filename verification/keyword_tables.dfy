/** The tables of keywordhash.h, which the tokenizer of the library looks its keywords up in. */
module KeywordTables {

  // ---- zKWText[], in which the keywords overlap ----

  predicate Capital(c: char) { 'A' <= c <= 'Z' || c == '_' }

  function Rows0(r: nat): (s: string)
    requires r < 4
    ensures |s| == 18 && forall j | 0 <= j < |s| :: Capital(s[j])
  {
    match r
    case 0 => "REINDEXEDESCAPEACH"
    case 1 => "ECKEYBEFOREIGNOREG"
    case 2 => "EXPLAINSTEADDATABA"
    case _ => "SELECTABLEFTHENDEF"
  }

  function Rows1(r: nat): (s: string)
    requires 4 <= r < 8
    ensures |s| == 18 && forall j | 0 <= j < |s| :: Capital(s[j])
  {
    match r
    case 4 => "ERRABLELSEXCEPTRAN"
    case 5 => "SACTIONATURALTERAI"
    case 6 => "SEXCLUSIVEXISTSAVE"
    case _ => "POINTERSECTRIGGERE"
  }

  function Rows2(r: nat): (s: string)
    requires 8 <= r < 12
    ensures |s| == 18 && forall j | 0 <= j < |s| :: Capital(s[j])
  {
    match r
    case 8 => "FERENCESCONSTRAINT"
    case 9 => "OFFSETEMPORARYUNIQ"
    case 10 => "UERYWITHOUTERELEAS"
    case _ => "EATTACHAVINGROUPDA"
  }

  function Rows3(r: nat): (s: string)
    requires 12 <= r < 16
    ensures |s| == 18 && forall j | 0 <= j < |s| :: Capital(s[j])
  {
    match r
    case 12 => "TEBEGINNERECURSIVE"
    case 13 => "BETWEENOTNULLIKECA"
    case 14 => "SCADELETECASECOLLA"
    case _ => "TECREATECURRENT_DA"
  }

  function Rows4(r: nat): (s: string)
    requires 16 <= r < 20
    ensures |s| == 18 && forall j | 0 <= j < |s| :: Capital(s[j])
  {
    match r
    case 16 => "TEDETACHIMMEDIATEJ"
    case 17 => "OINSERTMATCHPLANAL"
    case 18 => "YZEPRAGMABORTVALUE"
    case _ => "SVIRTUALIMITWHENWH"
  }

  function Rows5(r: nat): (s: string)
    requires 20 <= r < 24
    ensures |s| == 18 && forall j | 0 <= j < |s| :: Capital(s[j])
  {
    match r
    case 20 => "ERENAMEAFTEREPLACE"
    case 21 => "ANDEFAULTAUTOINCRE"
    case 22 => "MENTCASTCOLUMNCOMM"
    case _ => "ITCONFLICTCROSSCUR"
  }

  function Rows6(r: nat): (s: string)
    requires 24 <= r < 28
    ensures |s| == 18 && forall j | 0 <= j < |s| :: Capital(s[j])
  {
    match r
    case 24 => "RENT_TIMESTAMPRIMA"
    case 25 => "RYDEFERREDISTINCTD"
    case 26 => "ROPFAILFROMFULLGLO"
    case _ => "BYIFISNULLORDEREST"
  }

  function Rows7(r: nat): (s: string)
    requires 28 <= r < 31
    ensures |s| == (if r == 30 then 13 else 18) && forall j | 0 <= j < |s| :: Capital(s[j])
  {
    match r
    case 28 => "RICTRIGHTROLLBACKR"
    case 29 => "OWUNIONUSINGVACUUM"
    case _ => "VIEWINITIALLY"
  }

  function TextRow(r: nat): (s: string)
    requires r < 31
    ensures |s| == (if r == 30 then 13 else 18) && forall j | 0 <= j < |s| :: Capital(s[j])
  {
    match r / 4
    case 0 => Rows0(r)
    case 1 => Rows1(r)
    case 2 => Rows2(r)
    case 3 => Rows3(r)
    case 4 => Rows4(r)
    case 5 => Rows5(r)
    case 6 => Rows6(r)
    case _ => Rows7(r)
  }

  function TextAt(i: nat): (c: char)
    requires i < 553
    ensures Capital(c)
  {
    TextRow(i / 18)[i % 18]
  }

  lemma Text0()
    ensures TextRow(0) == "REINDEXEDESCAPEACH"
    ensures TextRow(1) == "ECKEYBEFOREIGNOREG"
    ensures TextRow(2) == "EXPLAINSTEADDATABA"
    ensures TextRow(3) == "SELECTABLEFTHENDEF"
  {
    hide Capital;
  }

  lemma Text1()
    ensures TextRow(4) == "ERRABLELSEXCEPTRAN"
    ensures TextRow(5) == "SACTIONATURALTERAI"
    ensures TextRow(6) == "SEXCLUSIVEXISTSAVE"
    ensures TextRow(7) == "POINTERSECTRIGGERE"
  {
    hide Capital;
  }

  lemma Text2()
    ensures TextRow(8) == "FERENCESCONSTRAINT"
    ensures TextRow(9) == "OFFSETEMPORARYUNIQ"
    ensures TextRow(10) == "UERYWITHOUTERELEAS"
    ensures TextRow(11) == "EATTACHAVINGROUPDA"
  {
    hide Capital;
  }

  lemma Text3()
    ensures TextRow(12) == "TEBEGINNERECURSIVE"
    ensures TextRow(13) == "BETWEENOTNULLIKECA"
    ensures TextRow(14) == "SCADELETECASECOLLA"
    ensures TextRow(15) == "TECREATECURRENT_DA"
  {
    hide Capital;
  }

  lemma Text4()
    ensures TextRow(16) == "TEDETACHIMMEDIATEJ"
    ensures TextRow(17) == "OINSERTMATCHPLANAL"
    ensures TextRow(18) == "YZEPRAGMABORTVALUE"
    ensures TextRow(19) == "SVIRTUALIMITWHENWH"
  {
    hide Capital;
  }

  lemma Text5()
    ensures TextRow(20) == "ERENAMEAFTEREPLACE"
    ensures TextRow(21) == "ANDEFAULTAUTOINCRE"
    ensures TextRow(22) == "MENTCASTCOLUMNCOMM"
    ensures TextRow(23) == "ITCONFLICTCROSSCUR"
  {
    hide Capital;
  }

  lemma Text6()
    ensures TextRow(24) == "RENT_TIMESTAMPRIMA"
    ensures TextRow(25) == "RYDEFERREDISTINCTD"
    ensures TextRow(26) == "ROPFAILFROMFULLGLO"
    ensures TextRow(27) == "BYIFISNULLORDEREST"
  {
    hide Capital;
  }

  lemma Text7()
    ensures TextRow(28) == "RICTRIGHTROLLBACKR"
    ensures TextRow(29) == "OWUNIONUSINGVACUUM"
    ensures TextRow(30) == "VIEWINITIALLY"
  {
    hide Capital;
  }

  // ---- aKWHash[]: where the chain of a hash value begins, counted from one, or 0 ----

  function Hash0(): (s: seq<nat>)
    ensures |s| == 13 && forall j | 0 <= j < 13 :: s[j] <= 124
  {
    [76, 105, 117, 74, 0, 45, 0, 0, 82, 0, 77, 0, 0]
  }

  function Hash1(): (s: seq<nat>)
    ensures |s| == 13 && forall j | 0 <= j < 13 :: s[j] <= 124
  {
    [42, 12, 78, 15, 0, 116, 85, 54, 112, 0, 19, 0, 0]
  }

  function Hash2(): (s: seq<nat>)
    ensures |s| == 13 && forall j | 0 <= j < 13 :: s[j] <= 124
  {
    [121, 0, 119, 115, 0, 22, 93, 0, 9, 0, 0, 70, 71]
  }

  function Hash3(): (s: seq<nat>)
    ensures |s| == 13 && forall j | 0 <= j < 13 :: s[j] <= 124
  {
    [0, 69, 6, 0, 48, 90, 102, 0, 118, 101, 0, 0, 44]
  }

  function Hash4(): (s: seq<nat>)
    ensures |s| == 13 && forall j | 0 <= j < 13 :: s[j] <= 124
  {
    [0, 103, 24, 0, 17, 0, 122, 53, 23, 0, 5, 110, 25]
  }

  function Hash5(): (s: seq<nat>)
    ensures |s| == 13 && forall j | 0 <= j < 13 :: s[j] <= 124
  {
    [96, 0, 0, 124, 106, 60, 123, 57, 28, 55, 0, 91, 0]
  }

  function Hash6(): (s: seq<nat>)
    ensures |s| == 13 && forall j | 0 <= j < 13 :: s[j] <= 124
  {
    [100, 26, 0, 99, 0, 0, 0, 95, 92, 97, 88, 109, 14]
  }

  function Hash7(): (s: seq<nat>)
    ensures |s| == 13 && forall j | 0 <= j < 13 :: s[j] <= 124
  {
    [39, 108, 0, 81, 0, 18, 89, 111, 32, 0, 120, 80, 113]
  }

  function Hash8(): (s: seq<nat>)
    ensures |s| == 13 && forall j | 0 <= j < 13 :: s[j] <= 124
  {
    [62, 46, 84, 0, 0, 94, 40, 59, 114, 0, 36, 0, 0]
  }

  function Hash9(): (s: seq<nat>)
    ensures |s| == 10 && forall j | 0 <= j < 10 :: s[j] <= 124
  {
    [29, 0, 86, 63, 64, 0, 20, 61, 0, 56]
  }

  function HashRow(r: nat): (s: seq<nat>)
    requires r < 10
    ensures |s| == (if r == 9 then 10 else 13) && forall j | 0 <= j < |s| :: s[j] <= 124
  {
    match r
    case 0 => Hash0()
    case 1 => Hash1()
    case 2 => Hash2()
    case 3 => Hash3()
    case 4 => Hash4()
    case 5 => Hash5()
    case 6 => Hash6()
    case 7 => Hash7()
    case 8 => Hash8()
    case _ => Hash9()
  }

  function Bucket(h: nat): (i: nat)
    requires h < 127
    ensures i <= 124
  {
    HashRow(h / 13)[h % 13]
  }

  // ---- aKWLen[], aKWOffset[] and aKWNext[], side by side ----

  /** Where a keyword is in the text, and where the chain goes on behind it, counted from one, or 0. */
  datatype Entry = Entry(len: nat, offset: nat, next: nat)

  /** Each is inside the text, and chains go on to lower places. */
  predicate Fits(e: Entry, k: nat) { 2 <= e.len && e.offset + e.len <= 553 && e.next <= k }

  function Entries0(): (s: seq<Entry>)
    ensures |s| == 13 && forall j | 0 <= j < 13 :: Fits(s[j], j)
  {
    [Entry(7, 0, 0), Entry(7, 2, 0), Entry(5, 2, 0), Entry(4, 8, 0), Entry(6, 9, 4),
     Entry(4, 14, 0), Entry(5, 16, 0), Entry(3, 20, 0), Entry(6, 23, 0), Entry(7, 25, 0),
     Entry(3, 25, 0), Entry(6, 29, 0), Entry(6, 33, 0)]
  }

  function Entries1(): (s: seq<Entry>)
    ensures |s| == 13 && forall j | 0 <= j < 13 :: Fits(s[j], 13 + j)
  {
    [Entry(7, 36, 0), Entry(7, 41, 2), Entry(3, 46, 0), Entry(8, 48, 0), Entry(2, 53, 0),
     Entry(6, 54, 0), Entry(5, 59, 0), Entry(4, 62, 0), Entry(4, 65, 13), Entry(3, 67, 0),
     Entry(10, 69, 0), Entry(4, 78, 0), Entry(6, 81, 0)]
  }

  function Entries2(): (s: seq<Entry>)
    ensures |s| == 13 && forall j | 0 <= j < 13 :: Fits(s[j], 26 + j)
  {
    [Entry(11, 86, 0), Entry(6, 91, 7), Entry(2, 95, 0), Entry(7, 96, 0), Entry(5, 101, 0),
     Entry(5, 105, 0), Entry(9, 109, 0), Entry(6, 117, 0), Entry(9, 122, 0), Entry(9, 128, 0),
     Entry(7, 136, 0), Entry(10, 142, 0), Entry(10, 152, 0)]
  }

  function Entries3(): (s: seq<Entry>)
    ensures |s| == 13 && forall j | 0 <= j < 13 :: Fits(s[j], 39 + j)
  {
    [Entry(4, 159, 0), Entry(6, 162, 0), Entry(2, 162, 0), Entry(3, 165, 0), Entry(9, 167, 33),
     Entry(4, 167, 0), Entry(2, 171, 21), Entry(6, 176, 0), Entry(5, 179, 0), Entry(7, 184, 0),
     Entry(4, 184, 0), Entry(5, 188, 0), Entry(7, 192, 50)]
  }

  function Entries4(): (s: seq<Entry>)
    ensures |s| == 13 && forall j | 0 <= j < 13 :: Fits(s[j], 52 + j)
  {
    [Entry(6, 199, 0), Entry(6, 204, 43), Entry(5, 209, 3), Entry(6, 212, 47), Entry(5, 218, 0),
     Entry(5, 221, 0), Entry(9, 225, 0), Entry(7, 234, 0), Entry(7, 240, 30), Entry(3, 240, 0),
     Entry(2, 240, 58), Entry(4, 243, 0), Entry(4, 246, 38)]
  }

  function Entries5(): (s: seq<Entry>)
    ensures |s| == 13 && forall j | 0 <= j < 13 :: Fits(s[j], 65 + j)
  {
    [Entry(7, 250, 0), Entry(3, 251, 0), Entry(6, 255, 0), Entry(4, 261, 1), Entry(7, 265, 66),
     Entry(6, 272, 0), Entry(12, 278, 0), Entry(6, 290, 67), Entry(9, 296, 0), Entry(4, 305, 41),
     Entry(6, 307, 0), Entry(5, 313, 0), Entry(4, 318, 0)]
  }

  function Entries6(): (s: seq<Entry>)
    ensures |s| == 13 && forall j | 0 <= j < 13 :: Fits(s[j], 78 + j)
  {
    [Entry(7, 320, 0), Entry(6, 327, 0), Entry(5, 332, 0), Entry(6, 337, 49), Entry(7, 343, 65),
     Entry(5, 349, 0), Entry(4, 354, 0), Entry(5, 358, 0), Entry(6, 361, 0), Entry(5, 367, 31),
     Entry(7, 371, 52), Entry(3, 378, 16), Entry(7, 380, 34)]
  }

  function Entries7(): (s: seq<Entry>)
    ensures |s| == 13 && forall j | 0 <= j < 13 :: Fits(s[j], 91 + j)
  {
    [Entry(13, 387, 10), Entry(2, 389, 0), Entry(2, 391, 0), Entry(4, 400, 0), Entry(6, 404, 0),
     Entry(6, 410, 0), Entry(8, 416, 0), Entry(5, 424, 0), Entry(17, 429, 11), Entry(12, 429, 72),
     Entry(7, 445, 79), Entry(8, 452, 0), Entry(8, 459, 8)]
  }

  function Entries8(): (s: seq<Entry>)
    ensures |s| == 13 && forall j | 0 <= j < 13 :: Fits(s[j], 104 + j)
  {
    [Entry(2, 460, 0), Entry(4, 467, 104), Entry(4, 471, 98), Entry(4, 475, 0), Entry(4, 479, 107),
     Entry(4, 483, 0), Entry(2, 486, 87), Entry(2, 488, 0), Entry(6, 490, 75), Entry(5, 496, 51),
     Entry(8, 500, 0), Entry(5, 508, 27), Entry(8, 513, 37)]
  }

  function Entries9(): (s: seq<Entry>)
    ensures |s| == 7 && forall j | 0 <= j < 7 :: Fits(s[j], 117 + j)
  {
    [Entry(3, 521, 73), Entry(5, 524, 83), Entry(5, 529, 0), Entry(6, 534, 35), Entry(4, 540, 68),
     Entry(9, 544, 0), Entry(3, 549, 0)]
  }

  function EntriesLow(r: nat): (s: seq<Entry>)
    requires r < 5
    ensures |s| == 13 && forall j | 0 <= j < |s| :: Fits(s[j], 13 * r + j)
  {
    match r
    case 0 => Entries0()
    case 1 => Entries1()
    case 2 => Entries2()
    case 3 => Entries3()
    case _ => Entries4()
  }

  function EntriesHigh(r: nat): (s: seq<Entry>)
    requires 5 <= r < 10
    ensures |s| == (if r == 9 then 7 else 13) && forall j | 0 <= j < |s| :: Fits(s[j], 13 * r + j)
  {
    match r
    case 5 => Entries5()
    case 6 => Entries6()
    case 7 => Entries7()
    case 8 => Entries8()
    case _ => Entries9()
  }

  function EntryRow(r: nat): (s: seq<Entry>)
    requires r < 10
    ensures |s| == (if r == 9 then 7 else 13) && forall j | 0 <= j < |s| :: Fits(s[j], 13 * r + j)
  {
    if r < 5 then EntriesLow(r) else EntriesHigh(r)
  }

  function At(k: nat): (e: Entry)
    requires k < 124
    ensures Fits(e, k)
  {
    EntryRow(k / 13)[k % 13]
  }

  lemma At0()
    ensures At(0) == Entry(7, 0, 0) && At(1) == Entry(7, 2, 0) && At(2) == Entry(5, 2, 0)
    ensures At(3) == Entry(4, 8, 0) && At(4) == Entry(6, 9, 4) && At(5) == Entry(4, 14, 0)
    ensures At(6) == Entry(5, 16, 0) && At(7) == Entry(3, 20, 0) && At(8) == Entry(6, 23, 0)
    ensures At(9) == Entry(7, 25, 0) && At(10) == Entry(3, 25, 0) && At(11) == Entry(6, 29, 0)
    ensures At(12) == Entry(6, 33, 0)
  {
    hide Fits;
  }

  lemma At1()
    ensures At(13) == Entry(7, 36, 0) && At(14) == Entry(7, 41, 2) && At(15) == Entry(3, 46, 0)
    ensures At(16) == Entry(8, 48, 0) && At(17) == Entry(2, 53, 0) && At(18) == Entry(6, 54, 0)
    ensures At(19) == Entry(5, 59, 0) && At(20) == Entry(4, 62, 0) && At(21) == Entry(4, 65, 13)
    ensures At(22) == Entry(3, 67, 0) && At(23) == Entry(10, 69, 0) && At(24) == Entry(4, 78, 0)
    ensures At(25) == Entry(6, 81, 0)
  {
    hide Fits;
  }

  lemma At2()
    ensures At(26) == Entry(11, 86, 0) && At(27) == Entry(6, 91, 7) && At(28) == Entry(2, 95, 0)
    ensures At(29) == Entry(7, 96, 0) && At(30) == Entry(5, 101, 0) && At(31) == Entry(5, 105, 0)
    ensures At(32) == Entry(9, 109, 0) && At(33) == Entry(6, 117, 0) && At(34) == Entry(9, 122, 0)
    ensures At(35) == Entry(9, 128, 0) && At(36) == Entry(7, 136, 0) && At(37) == Entry(10, 142, 0)
    ensures At(38) == Entry(10, 152, 0)
  {
    hide Fits;
  }

  lemma At3()
    ensures At(39) == Entry(4, 159, 0) && At(40) == Entry(6, 162, 0) && At(41) == Entry(2, 162, 0)
    ensures At(42) == Entry(3, 165, 0) && At(43) == Entry(9, 167, 33) && At(44) == Entry(4, 167, 0)
    ensures At(45) == Entry(2, 171, 21) && At(46) == Entry(6, 176, 0) && At(47) == Entry(5, 179, 0)
    ensures At(48) == Entry(7, 184, 0) && At(49) == Entry(4, 184, 0) && At(50) == Entry(5, 188, 0)
    ensures At(51) == Entry(7, 192, 50)
  {
    hide Fits;
  }

  lemma At4()
    ensures At(52) == Entry(6, 199, 0) && At(53) == Entry(6, 204, 43) && At(54) == Entry(5, 209, 3)
    ensures At(55) == Entry(6, 212, 47) && At(56) == Entry(5, 218, 0) && At(57) == Entry(5, 221, 0)
    ensures At(58) == Entry(9, 225, 0) && At(59) == Entry(7, 234, 0) && At(60) == Entry(7, 240, 30)
    ensures At(61) == Entry(3, 240, 0) && At(62) == Entry(2, 240, 58) && At(63) == Entry(4, 243, 0)
    ensures At(64) == Entry(4, 246, 38)
  {
    hide Fits;
  }

  lemma At5()
    ensures At(65) == Entry(7, 250, 0) && At(66) == Entry(3, 251, 0) && At(67) == Entry(6, 255, 0)
    ensures At(68) == Entry(4, 261, 1) && At(69) == Entry(7, 265, 66) && At(70) == Entry(6, 272, 0)
    ensures At(71) == Entry(12, 278, 0) && At(72) == Entry(6, 290, 67) && At(73) == Entry(9, 296, 0)
    ensures At(74) == Entry(4, 305, 41) && At(75) == Entry(6, 307, 0) && At(76) == Entry(5, 313, 0)
    ensures At(77) == Entry(4, 318, 0)
  {
    hide Fits;
  }

  lemma At6()
    ensures At(78) == Entry(7, 320, 0) && At(79) == Entry(6, 327, 0) && At(80) == Entry(5, 332, 0)
    ensures At(81) == Entry(6, 337, 49) && At(82) == Entry(7, 343, 65) && At(83) == Entry(5, 349, 0)
    ensures At(84) == Entry(4, 354, 0) && At(85) == Entry(5, 358, 0) && At(86) == Entry(6, 361, 0)
    ensures At(87) == Entry(5, 367, 31) && At(88) == Entry(7, 371, 52) && At(89) == Entry(3, 378, 16)
    ensures At(90) == Entry(7, 380, 34)
  {
    hide Fits;
  }

  lemma At7()
    ensures At(91) == Entry(13, 387, 10) && At(92) == Entry(2, 389, 0) && At(93) == Entry(2, 391, 0)
    ensures At(94) == Entry(4, 400, 0) && At(95) == Entry(6, 404, 0) && At(96) == Entry(6, 410, 0)
    ensures At(97) == Entry(8, 416, 0) && At(98) == Entry(5, 424, 0) && At(99) == Entry(17, 429, 11)
    ensures At(100) == Entry(12, 429, 72) && At(101) == Entry(7, 445, 79) && At(102) == Entry(8, 452, 0)
    ensures At(103) == Entry(8, 459, 8)
  {
    hide Fits;
  }

  lemma At8()
    ensures At(104) == Entry(2, 460, 0) && At(105) == Entry(4, 467, 104) && At(106) == Entry(4, 471, 98)
    ensures At(107) == Entry(4, 475, 0) && At(108) == Entry(4, 479, 107) && At(109) == Entry(4, 483, 0)
    ensures At(110) == Entry(2, 486, 87) && At(111) == Entry(2, 488, 0) && At(112) == Entry(6, 490, 75)
    ensures At(113) == Entry(5, 496, 51) && At(114) == Entry(8, 500, 0) && At(115) == Entry(5, 508, 27)
    ensures At(116) == Entry(8, 513, 37)
  {
    hide Fits;
  }

  lemma At9()
    ensures At(117) == Entry(3, 521, 73) && At(118) == Entry(5, 524, 83) && At(119) == Entry(5, 529, 0)
    ensures At(120) == Entry(6, 534, 35) && At(121) == Entry(4, 540, 68) && At(122) == Entry(9, 544, 0)
    ensures At(123) == Entry(3, 549, 0)
  {
    hide Fits;
  }

  /** The keyword at place `k`. */
  function Keyword(k: nat): (w: string)
    requires k < 124
    ensures |w| == At(k).len
  {
    var e := At(k);
    seq(e.len, j requires 0 <= j < e.len => TextAt(e.offset + j))
  }

  predicate Is(k: nat, w: string) { k < 124 && Keyword(k) == w }

  predicate IsKeyword(w: string) { exists k: nat | k < 124 :: Keyword(k) == w }
}
