/** What the CSV reader makes of every stream, with quotes out of place as well: laws in which the bytes
    are numbers. A field that starts with a quote is, once its stray quotes are doubled, closed or not. */
module CsvStreams {
  import opened Seqs
  import opened Wrappers
  import opened Csv
  import opened CsvRoundTrip

  /** Separators that are bytes and not the quote. */
  predicate Plain(sep: int, row: int) { sep != -1 && row != -1 && sep != 34 && row != 34 }

  /** A bare field goes on to the first separator, or to the end of the file. Before a row separator a
      carriage return is dropped. */
  lemma BareField(s: seq<Byte>, notFirst: bool, sep: int, row: int, n: nat)
    requires Plain(sep, row) && s != [] && s[0] != 34 && (notFirst || !([239, 187, 191] <= s))
    requires n <= |s| && (forall i | 0 <= i < n :: s[i] != sep && s[i] != row) && (n < |s| ==> s[n] == sep || s[n] == row)
    ensures var (r, ended) := (ReadField(s, notFirst, sep, row), n < |s| && s[n] == row);
      && r.field == Some(if ended && n > 0 && s[n - 1] == 13 then s[..n - 1] else s[..n])
      && r.term == (if n < |s| then s[n] else -1) && r.rest == s[if n < |s| then n + 1 else n..]
      && r.lines == (if ended then 1 else 0) && r.notFirst
  {
    NoMark(s);
    ReadFieldCases(s, notFirst, sep, row);
    var f, t := s[..n], s[n..];
    assert s == f + t && [] + f == f && (n < |s| ==> t[0] == s[n] && t[1..] == s[n + 1..]);
    assert n > 0 ==> f[n - 1] == s[n - 1] && f[..n - 1] == s[..n - 1];
    hide *;
    PlainBody(f, t, [], sep, row);
    BareEnd(f, t, sep, row);
  }

  lemma {:induction false} BareEnd(f: seq<Byte>, t: seq<Byte>, sep: int, row: int)
    requires Plain(sep, row) && (t != [] ==> t[0] == sep || t[0] == row)
    ensures PlainFrom(t, f, sep, row) ==
      if t == [] then Read(Some(f), -1, [], 0, true)
      else if t[0] != row then Read(Some(f), t[0], t[1..], 0, true)
      else Read(Some(if f != [] && f[|f| - 1] == 13 then f[..|f| - 1] else f), t[0], t[1..], 1, true)
  {}

  lemma NoMark(s: seq<Byte>)
    ensures StartsWithBom(s) <==> [239, 187, 191] <= s
  {
    if StartsWithBom(s) {
      assert s[..3] == [239, 187, 191];
    }
  }

  /** A byte order mark before anything else is skipped, and does not count as a field. */
  lemma MarkIsSkipped(s: seq<Byte>, sep: int, row: int)
    ensures ReadField([239, 187, 191] + s, false, sep, row) == ReadField(s, true, sep, row)
  {
    var t: seq<Byte> := [239, 187, 191] + s;
    assert t[3..] == s;
    ReadFieldCases(t, false, sep, row);
  }

  /** A quoted field that is never closed is all that is left, its quotes undoubled. */
  lemma UnclosedField(f: seq<Byte>, notFirst: bool, sep: int, row: int)
    requires Plain(sep, row)
    ensures var r := ReadField([34] + Doubled(f), notFirst, sep, row);
      r.field == Some(f) && r.term == -1 && r.rest == [] && r.notFirst
  {
    hide ReadField, QuotedFrom, Doubled, BackUp;
    var s := [34] + Doubled(f);
    FirstOf(34, Doubled(f));
    ReadFieldCases(s, notFirst, sep, row);
    var pc, ppc, n := QuotedBody(f, [], [], 0, 0, 0, sep, row);
    Empty(Doubled(f));
    Empty(f);
    QuotedStep([], f, pc, ppc, n, sep, row);
  }

  /** A closed one ends at the separator behind its closing quote, before which a carriage return may stand
      in a row separator, or at the end of the file. */
  lemma ClosedField(f: seq<Byte>, e: seq<Byte>, rest: seq<Byte>, notFirst: bool, sep: int, row: Byte)
    requires Plain(sep, row) && (sep == 13 || row == 13 ==> |e| < 2)
    requires (|e| == 1 && (e[0] == sep || e[0] == row)) || e == [13, row] || (e == [] && rest == [])
    ensures var r := ReadField([34] + Doubled(f) + [34] + e + rest, notFirst, sep, row);
      r.field == Some(f) && r.term == (if e == [] then -1 else e[|e| - 1]) && r.rest == rest && r.notFirst
  {
    hide ReadField, QuotedFrom, Doubled, BackUp;
    Opened(Doubled(f), e, rest);
    ReadFieldCases([34] + Doubled(f) + [34] + e + rest, notFirst, sep, row);
    var pc, ppc, n := QuotedBody(f, [34] + e + rest, [], 0, 0, 0, sep, row);
    Empty(f);
    Closing(f, e, rest, pc, ppc, n, sep, row);
  }

  lemma Closing(f: seq<Byte>, e: seq<Byte>, rest: seq<Byte>, pc: int, ppc: int, n: nat, sep: int, row: Byte)
    requires Plain(sep, row) && Inside(pc, ppc) && (sep == 13 || row == 13 ==> |e| < 2)
    requires (|e| == 1 && (e[0] == sep || e[0] == row)) || e == [13, row] || (e == [] && rest == [])
    ensures var r := QuotedFrom([34] + e + rest, f, pc, ppc, n, sep, row);
      r.field == Some(f) && r.term == (if e == [] then -1 else e[|e| - 1]) && r.rest == rest && r.notFirst
  {
    var s, q := [34] + e + rest, f + [34];
    assert s[1..] == e + rest;
    assert BackUp(q) == f && BackUp(q + [13]) == f by {
      LastOf(f, 34);
      LastOf(q, 13);
    }
    hide QuotedFrom, BackUp;
    QuotedStep(s, f, pc, ppc, n, sep, row);
    QuotedStep(e + rest, q, 34, pc, n, sep, row);
    if |e| == 2 {
      assert e + rest == [13] + ([row] + rest) && (e + rest)[1..] == [row] + rest && ([row] + rest)[1..] == rest;
      QuotedStep([row] + rest, q + [13], 13, 34, n, sep, row);
    } else {
      assert e != [] ==> (e + rest)[1..] == rest;
    }
  }

  /** The line count does not bear on what is read. */
  lemma {:induction false} LinesApart(s: seq<Byte>, z: seq<Byte>, pc: int, ppc: int, k: nat, n: nat, sep: int, row: int)
    ensures var (r, t) := (QuotedFrom(s, z, pc, ppc, k, sep, row), QuotedFrom(s, z, pc, ppc, n, sep, row));
      r.field == t.field && r.term == t.term && r.rest == t.rest
    decreases |s|
  {
    hide BackUp, Closes;
    var c := Next(s);
    if s != [] && c == 34 && pc == 34 {
      LinesApart(s[1..], z, 0, ppc, k + LineEnd(c, row), n + LineEnd(c, row), sep, row);
    } else if s != [] && !Closes(c, pc, ppc, sep, row) {
      LinesApart(s[1..], z + [c], c, pc, k + LineEnd(c, row), n + LineEnd(c, row), sep, row);
    }
  }

  /** The byte before the last matters only if the last is a carriage return and a row separator follows. */
  lemma BeforeLast(s: seq<Byte>, z: seq<Byte>, x: Byte, p: int, q: int, n: nat, sep: int, row: int)
    requires Plain(sep, row) && x != 34 && (x == 13 && s != [] ==> s[0] != row)
    ensures QuotedFrom(s, z, x, p, n, sep, row) == QuotedFrom(s, z, x, q, n, sep, row)
  {
    hide QuotedFrom, BackUp;
    QuotedStep(s, z, x, p, n, sep, row);
    QuotedStep(s, z, x, q, n, sep, row);
  }

  /** A quote inside a quoted field that neither closes it nor is doubled is read as if it were doubled. */
  lemma StrayQuote(f: seq<Byte>, x: Byte, s: seq<Byte>, notFirst: bool, sep: int, row: int)
    requires Plain(sep, row) && x != 34 && x != sep && x != row && (x == 13 && s != [] ==> s[0] != row)
    ensures var r := ReadField([34] + Doubled(f) + [34, x] + s, notFirst, sep, row);
      var t := ReadField([34] + Doubled(f + [34, x]) + s, notFirst, sep, row);
      r.field == t.field && r.term == t.term && r.rest == t.rest
  {
    var a, b := [34] + Doubled(f) + [34, x] + s, [34] + Doubled(f + [34, x]) + s;
    DoubledSnoc(f, 34);
    DoubledSnoc(f + [34], x);
    assert f + [34] + [x] == f + [34, x] && Doubled(f) + [34, 34] + [x] == Doubled(f) + [34, 34, x];
    assert a[1..] == Doubled(f) + ([34, x] + s) && b[1..] == Doubled(f) + ([34, 34, x] + s);
    hide ReadField, QuotedFrom, Doubled, BackUp;
    ReadFieldCases(a, notFirst, sep, row);
    ReadFieldCases(b, notFirst, sep, row);
    var pc, ppc, k := QuotedBody(f, [34, x] + s, [], 0, 0, 0, sep, row);
    var pc', ppc', n := QuotedBody(f, [34, 34, x] + s, [], 0, 0, 0, sep, row);
    Empty(f);
    StrayStep(x, s, f, pc, ppc, k, sep, row);
    DoubledStep(x, s, f, pc', ppc', n, sep, row);
    BeforeLast(s, f + [34, x], x, 34, 0, k, sep, row);
    LinesApart(s, f + [34, x], x, 0, k, n, sep, row);
  }

  lemma StrayStep(x: Byte, s: seq<Byte>, z: seq<Byte>, pc: int, ppc: int, n: nat, sep: int, row: int)
    requires Plain(sep, row) && Inside(pc, ppc) && x != 34 && x != sep && x != row
    ensures QuotedFrom([34, x] + s, z, pc, ppc, n, sep, row) == QuotedFrom(s, z + [34, x], x, 34, n, sep, row)
  {
    hide QuotedFrom, BackUp;
    var t := [34, x] + s;
    assert t[1..] == [x] + s && ([x] + s)[1..] == s && z + [34] + [x] == z + [34, x];
    QuotedStep(t, z, pc, ppc, n, sep, row);
    QuotedStep([x] + s, z + [34], 34, pc, n, sep, row);
  }

  lemma DoubledStep(x: Byte, s: seq<Byte>, z: seq<Byte>, pc: int, ppc: int, n: nat, sep: int, row: int)
    requires Plain(sep, row) && Inside(pc, ppc) && x != 34 && x != sep && x != row
    ensures QuotedFrom([34, 34, x] + s, z, pc, ppc, n, sep, row) == QuotedFrom(s, z + [34, x], x, 0, n, sep, row)
  {
    hide QuotedFrom, BackUp;
    var t := [34, 34, x] + s;
    assert t[1..] == [34, x] + s && ([34, x] + s)[1..] == [x] + s && ([x] + s)[1..] == s && z + [34] + [x] == z + [34, x];
    QuotedStep(t, z, pc, ppc, n, sep, row);
    QuotedStep([34, x] + s, z + [34], 34, pc, n, sep, row);
    QuotedStep([x] + s, z + [34], 0, pc, n, sep, row);
  }
}
