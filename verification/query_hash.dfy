/** The byte stream that sha3_query() hashes, and why different results never share one. */
module QueryHash {
  import opened Wrappers
  import opened Seqs
  import opened Numbers
  import opened MachineWords
  import opened Sponge
  import opened Sha3Engine

  // ---- What the queries return ----

  datatype Value = Null | Integer(bits: u64) | Float(bits: u64) | Text(bytes: seq<u8>) | Blob(bytes: seq<u8>)

  type Row = seq<Value>

  datatype Stmt = Stmt(sql: seq<u8>, rows: seq<Row>)

  /** Sizes are C `int`s. */
  ghost predicate Sized(bytes: seq<u8>) { |bytes| < 0x8000_0000 }

  ghost predicate SizedValue(v: Value) { (v.Text? || v.Blob?) ==> Sized(v.bytes) }

  ghost predicate SizedRow(row: Row) { forall i | 0 <= i < |row| :: SizedValue(row[i]) }

  ghost predicate SizedStmt(st: Stmt) {
    Sized(st.sql) && forall i | 0 <= i < |st.rows| :: SizedRow(st.rows[i])
  }

  // ---- The stream ----

  function Ascii(c: char): (r: u8) { U8(c as int) }

  /** `%d` of a size. */
  function SizeBytes(n: nat): (r: seq<u8>) { AsciiBytes(Decimal(n)) }

  function AsciiBytes(s: string): (r: seq<u8>)
    ensures |r| == |s|
  {
    seq(|s|, i requires 0 <= i < |s| => Ascii(s[i]))
  }

  function Header(tag: char, n: nat): (r: seq<u8>) { [Ascii(tag)] + SizeBytes(n) + [Ascii(':')] }

  /** hash_step_vformat(): at most 49 characters fit the buffer beside the terminator. */
  function Formatted(tag: char, n: nat): (r: seq<u8>) {
    var h := Header(tag, n);
    if |h| <= 49 then h else h[..49]
  }

  /** Most significant byte first. */
  function BigEndian(w: u64): (r: seq<u8>) {
    [ByteOf(w, 7), ByteOf(w, 6), ByteOf(w, 5), ByteOf(w, 4), ByteOf(w, 3), ByteOf(w, 2), ByteOf(w, 1), ByteOf(w, 0)]
  }

  function ValueBytes(v: Value): (r: seq<u8>) {
    match v
    case Null => [Ascii('N')]
    case Integer(w) => [Ascii('I')] + BigEndian(w)
    case Float(w) => [Ascii('F')] + BigEndian(w)
    case Text(b) => Header('T', |b|) + b
    case Blob(b) => Header('B', |b|) + b
  }

  function ValuesBytes(row: Row): (r: seq<u8>) {
    if row == [] then [] else ValuesBytes(row[..|row| - 1]) + ValueBytes(row[|row| - 1])
  }

  function RowsBytes(rows: seq<Row>): (r: seq<u8>) {
    if rows == [] then []
    else RowsBytes(rows[..|rows| - 1]) + ([Ascii('R')] + ValuesBytes(rows[|rows| - 1]))
  }

  function StmtBytes(st: Stmt): (r: seq<u8>) { Header('S', |st.sql|) + st.sql + RowsBytes(st.rows) }

  function TraceBytes(t: seq<Stmt>): (r: seq<u8>) {
    if t == [] then [] else TraceBytes(t[..|t| - 1]) + StmtBytes(t[|t| - 1])
  }

  // ---- The stream in numbers ----

  /** The number that bytes make, the first of them the most significant. */
  function Number(b: seq<u8>): (n: nat) { if b == [] then 0 else 256 * Number(b[..|b| - 1]) + Code(b[|b| - 1]) }

  lemma {:induction false} ValueOfBoth(a: seq<bool>, b: seq<bool>)
    ensures ValueOf(a + b) == ValueOf(a) + Pow2(|a|) * ValueOf(b)
  {
    if a == [] {
      assert a + b == b;
    } else {
      TailOfBoth(a, b);
      ValueOfBoth(a[1..], b);
      assert Pow2(|a|) == 2 * Pow2(|a| - 1);
      Twice(Pow2(|a| - 1), ValueOf(b));
    }
  }

  lemma Twice(m: nat, n: nat)
    ensures (2 * m) * n == 2 * (m * n)
  {}

  lemma {:induction false} NumberFrom(w: u64, b: seq<u8>, n: nat)
    requires n <= 8 && |b| == 8 && forall k | 0 <= k < 8 :: b[k] == w[56 - 8 * k..64 - 8 * k]
    ensures Number(b[..n]) == ValueOf(w[64 - 8 * n..])
  {
    if n > 0 {
      NumberFrom(w, b, n - 1);
      assert b[..n][..n - 1] == b[..n - 1];
      var low, high := w[64 - 8 * n..72 - 8 * n], w[72 - 8 * n..];
      assert low + high == w[64 - 8 * n..];
      ValueOfBoth(low, high);
      assert Pow2(8) == 256;
    }
  }

  /** What each value adds, with the tags as the codes of N, I, F, T and B. Integers and floats are eight
      bytes that make the number of the word, the most significant first. */
  lemma ValueInCodes(v: Value)
    ensures v.Null? ==> ValueBytes(v) == [U8(78)]
    ensures v.Integer? || v.Float? ==>
      && |ValueBytes(v)| == 9 && ValueBytes(v)[0] == U8(if v.Integer? then 73 else 70)
      && Number(ValueBytes(v)[1..]) == ValueOf(v.bits)
    ensures v.Text? || v.Blob? ==>
      ValueBytes(v) == [U8(if v.Text? then 84 else 66)] + SizeBytes(|v.bytes|) + [U8(58)] + v.bytes
  {
    if v.Integer? || v.Float? {
      var w, b := v.bits, BigEndian(v.bits);
      assert forall k | 0 <= k < 8 :: b[k] == w[56 - 8 * k..64 - 8 * k];
      NumberFrom(w, b, 8);
      assert b[..8] == b && w[0..] == w;
      assert ValueBytes(v)[1..] == b;
    }
  }

  /** A statement is its text behind an S and the size, then an R and the values for each row. */
  lemma StatementInCodes(sql: seq<u8>, rows: seq<Row>, row: Row)
    ensures StmtBytes(Stmt(sql, [])) == [U8(83)] + SizeBytes(|sql|) + [U8(58)] + sql
    ensures StmtBytes(Stmt(sql, rows + [row])) == StmtBytes(Stmt(sql, rows)) + ([U8(82)] + ValuesBytes(row))
  {
    hide ValuesBytes, SizeBytes, U8;
    LastOf(rows, row);
    Assoc(Header('S', |sql|) + sql, RowsBytes(rows), [Ascii('R')] + ValuesBytes(row));
  }

  // ---- The format buffer is large enough ----

  /** No header is ever truncated. */
  lemma HeaderFits(tag: char, n: nat)
    requires n < 0x8000_0000
    ensures Formatted(tag, n) == Header(tag, n) && |Header(tag, n)| <= 12
  {
    TenDigits(n);
  }

  // ---- A decoder ----

  function Code(b: u8): (r: nat) { ValueOf(b) }

  lemma CodeOf(n: nat)
    requires n < 256
    ensures Code(U8(n)) == n
  {
    assert Pow2(8) == 256;
    ValueOfBits(n, 8);
  }

  /** Reads digits up to a colon. */
  function ReadSize(s: seq<u8>, acc: nat): (r: Option<(nat, seq<u8>)>) {
    if s == [] then None
    else if Code(s[0]) == ':' as int then Some((acc, s[1..]))
    else if 48 <= Code(s[0]) < 58 then ReadSize(s[1..], 10 * acc + (Code(s[0]) - 48))
    else None
  }

  datatype Token = TSql(sql: seq<u8>) | TRow | TValue(v: Value)

  /** The token that a tag with a size makes of the bytes behind it. */
  function Made(tag: char, b: seq<u8>): (r: Token) {
    if tag == 'S' then TSql(b) else if tag == 'T' then TValue(Text(b)) else TValue(Blob(b))
  }

  function Sliced(s: seq<u8>, tag: char): (r: Option<(Token, seq<u8>)>) {
    match ReadSize(s, 0)
    case None => None
    case Some((n, rest)) => if n <= |rest| then Some((Made(tag, rest[..n]), rest[n..])) else None
  }

  function Word(b: seq<u8>): (r: u64)
    requires |b| == 8
  {
    Bits([b[7], b[6], b[5], b[4], b[3], b[2], b[1], b[0]])
  }

  function NextToken(s: seq<u8>): (r: Option<(Token, seq<u8>)>)
    requires s != []
  {
    var c, t := Code(s[0]), s[1..];
    if c == 'S' as int then Sliced(t, 'S')
    else if c == 'R' as int then Some((TRow, t))
    else if c == 'N' as int then Some((TValue(Null), t))
    else if c == 'I' as int then if |t| < 8 then None else Some((TValue(Integer(Word(t[..8]))), t[8..]))
    else if c == 'F' as int then if |t| < 8 then None else Some((TValue(Float(Word(t[..8]))), t[8..]))
    else if c == 'T' as int then Sliced(t, 'T')
    else if c == 'B' as int then Sliced(t, 'B')
    else None
  }

  /** Adds a token to the trace read so far; rows and values need something to belong to. */
  function Apply(t: seq<Stmt>, k: Token): (r: Option<seq<Stmt>>) {
    if k.TSql? then Some(t + [Stmt(k.sql, [])])
    else if t == [] then None
    else
      var st := t[|t| - 1];
      if k.TRow? then Some(t[|t| - 1 := st.(rows := st.rows + [[]])])
      else if st.rows == [] then None
      else
        var r := |st.rows| - 1;
        Some(t[|t| - 1 := st.(rows := st.rows[r := st.rows[r] + [k.v]])])
  }

  /** Reads `s` after the trace `t`. */
  function DecodeFrom(t: seq<Stmt>, s: seq<u8>): (r: Option<seq<Stmt>>)
    decreases |s|
  {
    if s == [] then Some(t)
    else
      match NextToken(s)
      case None => None
      case Some((k, rest)) =>
        match Apply(t, k)
        case None => None
        case Some(t') => if |rest| < |s| then DecodeFrom(t', rest) else None
  }

  function Decode(s: seq<u8>): (r: Option<seq<Stmt>>) { DecodeFrom([], s) }

  // ---- The decoder undoes the stream ----

  lemma {:induction false} ReadDecimal(n: nat, s: seq<u8>)
    ensures ReadSize(SizeBytes(n) + s, 0) == ReadSize(s, n)
  {
    hide *;
    SizeStep(n);
    if n < 10 {
      ReadDigit(n, s, 0);
    } else {
      var d := U8(48 + n % 10);
      ReadDecimal(n / 10, [d] + s);
      ReadDigit(n % 10, s, n / 10);
      Assoc(SizeBytes(n / 10), [d], s);
    }
  }

  lemma {:induction false} SizeStep(n: nat)
    ensures n < 10 ==> SizeBytes(n) == [U8(48 + n)]
    ensures n >= 10 ==> SizeBytes(n) == SizeBytes(n / 10) + [U8(48 + n % 10)]
  {
    hide U8;
    var d := Numbers.Digit(n % 10);
    assert Ascii(d) == U8(48 + n % 10);
    if n >= 10 {
      assert AsciiBytes(Decimal(n / 10) + [d]) == AsciiBytes(Decimal(n / 10)) + [Ascii(d)];
    }
  }

  lemma ReadDigit(d: nat, s: seq<u8>, acc: nat)
    requires d < 10
    ensures ReadSize([U8(48 + d)] + s, acc) == ReadSize(s, 10 * acc + d)
  {
    CodeOf(48 + d);
    hide U8, Code;
    assert ([U8(48 + d)] + s)[1..] == s;
  }

  lemma {:induction false} ReadHeader(n: nat, s: seq<u8>)
    ensures ReadSize(SizeBytes(n) + [Ascii(':')] + s, 0) == Some((n, s))
  {
    CodeOf(':' as int);
    hide SizeBytes, U8, Code;
    ReadDecimal(n, [Ascii(':')] + s);
    assert SizeBytes(n) + [Ascii(':')] + s == SizeBytes(n) + ([Ascii(':')] + s);
    assert ([Ascii(':')] + s)[1..] == s;
  }

  lemma ReadSlice(tag: char, b: seq<u8>, rest: seq<u8>)
    ensures Header(tag, |b|) != [] && (Header(tag, |b|) + b + rest)[0] == Ascii(tag)
    ensures Sliced((Header(tag, |b|) + b + rest)[1..], tag) == Some((Made(tag, b), rest))
  {
    hide SizeBytes, ReadSize, U8;
    ReadHeader(|b|, b + rest);
    assert (Header(tag, |b|) + b + rest)[1..] == SizeBytes(|b|) + [Ascii(':')] + (b + rest);
    assert (b + rest)[..|b|] == b && (b + rest)[|b|..] == rest;
  }

  lemma WordOfBigEndian(w: u64)
    ensures Word(BigEndian(w)) == w
  {
    var m: seq<u8> := [ByteOf(w, 0), ByteOf(w, 1), ByteOf(w, 2), ByteOf(w, 3), ByteOf(w, 4), ByteOf(w, 5), ByteOf(w, 6), ByteOf(w, 7)];
    BytesOfWord(w, m, 0);
    assert w[0..] == w;
  }

  lemma {:induction false} BytesOfWord(w: u64, m: seq<u8>, k: nat)
    requires |m| == 8 && k <= 8 && forall i | 0 <= i < 8 :: m[i] == ByteOf(w, i)
    ensures Bits(m[k..]) == w[8 * k..]
    decreases 8 - k
  {
    if k < 8 {
      BytesOfWord(w, m, k + 1);
      assert m[k..][1..] == m[k + 1..];
      assert w[8 * k..] == w[8 * k..8 * k + 8] + w[8 * (k + 1)..];
    }
  }

  lemma TagCodes(c: char)
    requires c as int < 256
    ensures Code(Ascii(c)) == c as int
  {
    CodeOf(c as int);
  }

  function TokenBytes(k: Token): (r: seq<u8>) {
    match k
    case TSql(sql) => Header('S', |sql|) + sql
    case TRow => [Ascii('R')]
    case TValue(v) => ValueBytes(v)
  }

  /** What the token behind a tag is. */
  lemma NextIs(tag: char, s: seq<u8>)
    requires s != [] && s[0] == Ascii(tag) && tag as int < 256
    ensures var t := s[1..];
      NextToken(s) ==
        if tag == 'R' then Some((TRow, t))
        else if tag == 'N' then Some((TValue(Null), t))
        else if tag == 'I' then if |t| < 8 then None else Some((TValue(Integer(Word(t[..8]))), t[8..]))
        else if tag == 'F' then if |t| < 8 then None else Some((TValue(Float(Word(t[..8]))), t[8..]))
        else if tag == 'S' || tag == 'T' || tag == 'B' then Sliced(t, tag)
        else None
  {
    TagCodes(tag);
    hide Ascii, Code, Word, Sliced;
  }

  lemma ReadToken(k: Token, rest: seq<u8>)
    ensures TokenBytes(k) != [] && NextToken(TokenBytes(k) + rest) == Some((k, rest))
  {
    hide NextToken, Ascii, Header, Sliced;
    match k
    case TSql(sql) =>
      ReadSlice('S', sql, rest);
      NextIs('S', TokenBytes(k) + rest);
    case TRow =>
      FirstOf(Ascii('R'), rest);
      NextIs('R', TokenBytes(k) + rest);
    case TValue(v) =>
      ReadValue(v, rest);
  }

  lemma ReadWord(tag: char, w: u64, rest: seq<u8>)
    ensures var s := [Ascii(tag)] + BigEndian(w) + rest;
      s[0] == Ascii(tag) && |s| >= 9 && Word(s[1..][..8]) == w && s[1..][8..] == rest
  {
    WordOfBigEndian(w);
    hide Word, Ascii;
    var t := ([Ascii(tag)] + BigEndian(w) + rest)[1..];
    assert t[..8] == BigEndian(w) && t[8..] == rest;
  }

  lemma ReadValue(v: Value, rest: seq<u8>)
    ensures ValueBytes(v) != [] && NextToken(ValueBytes(v) + rest) == Some((TValue(v), rest))
  {
    hide NextToken, Ascii, BigEndian, Word, Header, Sliced;
    match v
    case Null =>
      FirstOf(Ascii('N'), rest);
      NextIs('N', ValueBytes(v) + rest);
    case Integer(w) =>
      ReadWord('I', w, rest);
      NextIs('I', ValueBytes(v) + rest);
    case Float(w) =>
      ReadWord('F', w, rest);
      NextIs('F', ValueBytes(v) + rest);
    case Text(b) =>
      ReadSlice('T', b, rest);
      NextIs('T', ValueBytes(v) + rest);
    case Blob(b) =>
      ReadSlice('B', b, rest);
      NextIs('B', ValueBytes(v) + rest);
  }

  lemma {:induction false} DecodeToken(t: seq<Stmt>, k: Token, rest: seq<u8>)
    requires Apply(t, k).Some?
    ensures DecodeFrom(t, TokenBytes(k) + rest) == DecodeFrom(Apply(t, k).value, rest)
  {
    ReadToken(k, rest);
    hide NextToken, Apply, TokenBytes;
  }

  lemma ApplyValue(t: seq<Stmt>, sql: seq<u8>, rows: seq<Row>, front: Row, v: Value)
    ensures Apply(t + [Stmt(sql, rows + [front])], TValue(v)) == Some(t + [Stmt(sql, rows + [front + [v]])])
  {
    var st := Stmt(sql, rows + [front]);
    assert st.rows[|rows| := front + [v]] == rows + [front + [v]];
    assert (t + [st])[|t| := Stmt(sql, rows + [front + [v]])] == t + [Stmt(sql, rows + [front + [v]])];
  }

  lemma ApplyRow(t: seq<Stmt>, sql: seq<u8>, rows: seq<Row>)
    ensures Apply(t + [Stmt(sql, rows)], TRow) == Some(t + [Stmt(sql, rows + [[]])])
  {
    assert (t + [Stmt(sql, rows)])[|t| := Stmt(sql, rows + [[]])] == t + [Stmt(sql, rows + [[]])];
  }

  lemma {:induction false} DecodeValue(t: seq<Stmt>, sql: seq<u8>, rows: seq<Row>, front: Row, v: Value, rest: seq<u8>)
    ensures DecodeFrom(t + [Stmt(sql, rows + [front])], ValueBytes(v) + rest)
      == DecodeFrom(t + [Stmt(sql, rows + [front + [v]])], rest)
  {
    hide DecodeFrom, Apply, ValueBytes;
    ApplyValue(t, sql, rows, front, v);
    DecodeToken(t + [Stmt(sql, rows + [front])], TValue(v), rest);
  }

  lemma {:induction false} DecodeValues(t: seq<Stmt>, sql: seq<u8>, rows: seq<Row>, row: Row, rest: seq<u8>)
    ensures DecodeFrom(t + [Stmt(sql, rows + [[]])], ValuesBytes(row) + rest) == DecodeFrom(t + [Stmt(sql, rows + [row])], rest)
    decreases |row|
  {
    hide DecodeFrom, ValueBytes;
    if row == [] {
      assert ValuesBytes(row) + rest == rest;
    } else {
      var front, v := row[..|row| - 1], row[|row| - 1];
      var b := ValueBytes(v);
      assert ValuesBytes(row) == ValuesBytes(front) + b;
      hide ValuesBytes;
      DecodeValues(t, sql, rows, front, b + rest);
      assert (ValuesBytes(front) + b) + rest == ValuesBytes(front) + (b + rest);
      DecodeValue(t, sql, rows, front, v, rest);
      assert front + [v] == row;
    }
  }

  lemma {:induction false} DecodeRow(t: seq<Stmt>, sql: seq<u8>, rows: seq<Row>, row: Row, rest: seq<u8>)
    ensures DecodeFrom(t + [Stmt(sql, rows)], [Ascii('R')] + ValuesBytes(row) + rest)
      == DecodeFrom(t + [Stmt(sql, rows + [row])], rest)
  {
    assert TokenBytes(TRow) == [Ascii('R')];
    hide DecodeFrom, Apply, ValuesBytes, TokenBytes, Ascii;
    ApplyRow(t, sql, rows);
    assert [Ascii('R')] + ValuesBytes(row) + rest == [Ascii('R')] + (ValuesBytes(row) + rest);
    DecodeToken(t + [Stmt(sql, rows)], TRow, ValuesBytes(row) + rest);
    DecodeValues(t, sql, rows, row, rest);
  }

  lemma {:induction false} DecodeRows(t: seq<Stmt>, sql: seq<u8>, rows: seq<Row>, rest: seq<u8>)
    ensures DecodeFrom(t + [Stmt(sql, [])], RowsBytes(rows) + rest) == DecodeFrom(t + [Stmt(sql, rows)], rest)
    decreases |rows|
  {
    hide DecodeFrom, ValuesBytes, Ascii;
    if rows == [] {
      assert RowsBytes(rows) + rest == rest;
    } else {
      var front, row := rows[..|rows| - 1], rows[|rows| - 1];
      var b := [Ascii('R')] + ValuesBytes(row);
      assert RowsBytes(rows) == RowsBytes(front) + b;
      hide RowsBytes;
      DecodeRows(t, sql, front, b + rest);
      assert (RowsBytes(front) + b) + rest == RowsBytes(front) + (b + rest);
      DecodeRow(t, sql, front, row, rest);
      assert front + [row] == rows;
    }
  }

  lemma {:induction false} DecodeStmt(t: seq<Stmt>, st: Stmt, rest: seq<u8>)
    ensures DecodeFrom(t, StmtBytes(st) + rest) == DecodeFrom(t + [st], rest)
  {
    hide DecodeFrom, Header, RowsBytes;
    var tail := RowsBytes(st.rows) + rest;
    DecodeToken(t, TSql(st.sql), tail);
    assert StmtBytes(st) + rest == TokenBytes(TSql(st.sql)) + tail;
    DecodeRows(t, st.sql, st.rows, rest);
  }

  lemma {:induction false} TraceAnd(front: seq<Stmt>, st: Stmt, rest: seq<u8>)
    ensures TraceBytes(front + [st]) + rest == TraceBytes(front) + (StmtBytes(st) + rest)
  {
    hide StmtBytes;
    LastOf(front, st);
    Assoc(TraceBytes(front), StmtBytes(st), rest);
  }

  lemma {:induction false} DecodeTrace(t: seq<Stmt>, rest: seq<u8>)
    ensures DecodeFrom([], TraceBytes(t) + rest) == DecodeFrom(t, rest)
    decreases |t|
  {
    if t == [] {
      Empty(rest);
    } else {
      hide *;
      var front, st := t[..|t| - 1], t[|t| - 1];
      DecodeTrace(front, StmtBytes(st) + rest);
      TraceAnd(front, st, rest);
      DecodeStmt(front, st, rest);
      Unsnoc(t);
    }
  }

  /** The stream determines the statements, rows and typed values behind it. */
  lemma {:induction false} DecodeInverts(t: seq<Stmt>)
    ensures Decode(TraceBytes(t)) == Some(t)
  {
    DecodeTrace(t, []);
    assert TraceBytes(t) + [] == TraceBytes(t);
  }

  /** Different results never feed the same bytes to the hash. */
  lemma {:induction false} TraceBytesInjective(t1: seq<Stmt>, t2: seq<Stmt>)
    requires TraceBytes(t1) == TraceBytes(t2)
    ensures t1 == t2
  {
    DecodeInverts(t1);
    DecodeInverts(t2);
  }

  // ---- The code that feeds the stream ----

  /** The loop that stores an integer or a float: the low byte goes to the highest index. */
  method StoreWord(tag: char, w: u64) returns (x: array<u8>)
    ensures fresh(x) && x[..] == [Ascii(tag)] + BigEndian(w)
  {
    x := new u8[9](_ => Zeros(8));
    var u := w;
    var j := 8;
    while j >= 1
      invariant 0 <= j <= 8
      invariant u == w[8 * (8 - j)..] + Zeros(8 * (8 - j))
      invariant forall k | j < k <= 8 :: x[k] == ByteOf(w, 8 - k)
    {
      assert u[..8] == ByteOf(w, 8 - j);
      x[j] := u[..8];
      assert Shr(u, 8) == w[8 * (9 - j)..] + Zeros(8 * (9 - j));
      u := Shr(u, 8);
      j := j - 1;
    }
    x[0] := Ascii(tag);
  }

  method HashFormat(cx: SHA3Context, tag: char, n: nat)
    requires cx.Valid() && n < 0x8000_0000
    modifies cx`nLoaded, cx`fed, cx.s, cx.tail
    ensures cx.Valid() && cx.fed == old(cx.fed) + Header(tag, n)
  {
    HeaderFits(tag, n);
    var aligned: bool := *;
    cx.Update(Formatted(tag, n), aligned);
  }

  /** The branch of the switch for one column. */
  method HashValue(cx: SHA3Context, v: Value)
    requires cx.Valid() && SizedValue(v)
    modifies cx`nLoaded, cx`fed, cx.s, cx.tail
    ensures cx.Valid() && cx.fed == old(cx.fed) + ValueBytes(v)
  {
    hide Header, U8, BigEndian;
    var aligned: bool := *;
    match v
    case Null =>
      cx.Update([Ascii('N')], aligned);
    case Integer(w) =>
      var x := StoreWord('I', w);
      cx.Update(x[..], aligned);
    case Float(w) =>
      var x := StoreWord('F', w);
      cx.Update(x[..], aligned);
    case Text(b) =>
      HashFormat(cx, 'T', |b|);
      cx.Update(b, aligned);
      assert old(cx.fed) + Header('T', |b|) + b == old(cx.fed) + (Header('T', |b|) + b);
    case Blob(b) =>
      HashFormat(cx, 'B', |b|);
      cx.Update(b, aligned);
      assert old(cx.fed) + Header('B', |b|) + b == old(cx.fed) + (Header('B', |b|) + b);
  }

  method HashRow(cx: SHA3Context, row: Row)
    requires cx.Valid() && SizedRow(row)
    modifies cx`nLoaded, cx`fed, cx.s, cx.tail
    ensures cx.Valid() && cx.fed == old(cx.fed) + ([Ascii('R')] + ValuesBytes(row))
  {
    hide ValuesBytes, ValueBytes, Ascii;
    ghost var before := cx.fed;
    ghost var start := before + [Ascii('R')];
    var aligned: bool := *;
    cx.Update([Ascii('R')], aligned);
    var i := 0;
    ValuesStep(row, 0);
    Empty(start);
    while i < |row|
      invariant 0 <= i <= |row|
      invariant cx.Valid() && cx.fed == start + ValuesBytes(row[..i])
    {
      HashValue(cx, row[i]);
      ValuesStep(row, i + 1);
      Assoc(start, ValuesBytes(row[..i]), ValueBytes(row[i]));
      i := i + 1;
    }
    assert row[..i] == row;
    Assoc(before, [Ascii('R')], ValuesBytes(row));
  }

  lemma {:induction false} ValuesStep(row: Row, i: nat)
    requires i <= |row|
    ensures ValuesBytes(row[..i]) == if i == 0 then [] else ValuesBytes(row[..i - 1]) + ValueBytes(row[i - 1])
  {
    hide ValueBytes;
    assert i > 0 ==> row[..i][..i - 1] == row[..i - 1];
  }

  method HashStmt(cx: SHA3Context, st: Stmt)
    requires cx.Valid() && SizedStmt(st)
    modifies cx`nLoaded, cx`fed, cx.s, cx.tail
    ensures cx.Valid() && cx.fed == old(cx.fed) + StmtBytes(st)
  {
    hide ValuesBytes, U8, Header, SizedRow;
    ghost var before := cx.fed;
    var aligned: bool := *;
    HashFormat(cx, 'S', |st.sql|);
    cx.Update(st.sql, aligned);
    ghost var h := Header('S', |st.sql|) + st.sql;
    assert cx.fed == before + (h + RowsBytes([]));
    var i := 0;
    while i < |st.rows|
      invariant 0 <= i <= |st.rows|
      invariant cx.Valid() && cx.fed == before + (h + RowsBytes(st.rows[..i]))
    {
      HashRow(cx, st.rows[i]);
      assert st.rows[..i + 1][..i] == st.rows[..i];
      ghost var b := [Ascii('R')] + ValuesBytes(st.rows[i]);
      assert before + (h + RowsBytes(st.rows[..i])) + b == before + (h + (RowsBytes(st.rows[..i]) + b));
      i := i + 1;
    }
    assert st.rows[..i] == st.rows;
  }

  /** What sqlite3_prepare_v2() makes of the next statement of the script. */
  datatype Prepared = PrepareError | NonQuery | Query(stmt: Stmt)

  function Trace(script: seq<Prepared>): (r: seq<Stmt>)
    requires forall i | 0 <= i < |script| :: script[i].Query?
  {
    if script == [] then [] else Trace(script[..|script| - 1]) + [script[|script| - 1].stmt]
  }

  lemma TraceSnoc(script: seq<Prepared>, i: nat)
    requires i < |script| && forall k | 0 <= k <= i :: script[k].Query?
    ensures TraceBytes(Trace(script[..i + 1])) == TraceBytes(Trace(script[..i])) + StmtBytes(script[i].stmt)
  {
    hide StmtBytes;
    var t := Trace(script[..i]);
    assert script[..i + 1][..i] == script[..i];
    assert (t + [script[i].stmt])[..|t|] == t;
  }

  /** The statement loop: stops at the first statement that cannot be used. */
  method HashScript(cx: SHA3Context, script: seq<Prepared>) returns (done: nat)
    requires cx.Valid() && cx.fed == []
    requires forall i | 0 <= i < |script| && script[i].Query? :: SizedStmt(script[i].stmt)
    modifies cx`nLoaded, cx`fed, cx.s, cx.tail
    ensures done <= |script| && forall k | 0 <= k < done :: script[k].Query?
    ensures done < |script| ==> !script[done].Query?
    ensures done == |script| ==> cx.Valid() && cx.fed == TraceBytes(Trace(script))
  {
    hide StmtBytes, SizedStmt;
    done := 0;
    while done < |script|
      invariant 0 <= done <= |script|
      invariant forall k | 0 <= k < done :: script[k].Query?
      invariant cx.Valid() && cx.fed == TraceBytes(Trace(script[..done]))
    {
      if !script[done].Query? {
        return;
      }
      HashStmt(cx, script[done].stmt);
      TraceSnoc(script, done);
      done := done + 1;
    }
    assert script[..done] == script;
  }

  datatype QueryResult = BadSize | ScriptError(at: nat) | Digest(bytes: seq<u8>)

  /** sha3_query(): the hash of the stream, or the first statement that is not a readable query. */
  method Sha3Query(script: seq<Prepared>, iSize: int, order: ByteOrder, bigEndian: bool) returns (r: QueryResult)
    requires (order == Little ==> !bigEndian) && (order == Big ==> bigEndian)
    requires forall i | 0 <= i < |script| && script[i].Query? :: SizedStmt(script[i].stmt)
    ensures r.BadSize? <==> iSize != 224 && iSize != 256 && iSize != 384 && iSize != 512
    ensures r.ScriptError? ==> r.at < |script| && !script[r.at].Query? && forall i | 0 <= i < r.at :: script[i].Query?
    ensures r.Digest? ==>
      && (forall i | 0 <= i < |script| :: script[i].Query?)
      && |r.bytes| == iSize / 8
      && Bits(r.bytes) == Sha3(Bits(TraceBytes(Trace(script))), iSize)
  {
    if !StandardSize(iSize) {
      return BadSize;
    }
    StandardRate(iSize);
    hide SizedStmt, TraceBytes, Trace, RateFor, StandardSize;
    var cx := new SHA3Context.Init(iSize, order, bigEndian);
    var done := HashScript(cx, script);
    if done < |script| {
      return ScriptError(done);
    }
    var digest := TakeDigest(cx, iSize);
    r := Digest(digest);
  }
}
