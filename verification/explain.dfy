/** explain_data_prepare(): how far each opcode of an EXPLAIN listing is indented. */
module Explain {
  import opened Wrappers
  import opened Chars

  /** A row of the listing. `addr` restarts in every sub-program. */
  datatype Op = Op(addr: int, opcode: string, p1: int, p2: int)

  const NEXT: seq<string> := ["Next", "Prev", "VPrev", "VNext", "SorterNext", "NextIfOpen", "PrevIfOpen"]
  const YIELD: seq<string> := ["Yield", "SeekLT", "SeekGT", "RowSetRead", "Rewind"]
  const GOTO: seq<string> := ["Goto"]

  // ---- The rule ----

  /** The place in the listing that P2 of the opcode at `m` points to. */
  function Target(ops: seq<Op>, m: nat): (r: int)
    requires m < |ops|
  {
    ops[m].p2 + (m - ops[m].addr)
  }

  /** The opcode at `m` ends a loop whose body starts at its target. */
  predicate Indents(ops: seq<Op>, m: nat)
    requires m < |ops|
  {
    var p2op := Target(ops, m);
    ops[m].opcode in NEXT ||
    (ops[m].opcode in GOTO && 0 <= p2op <= m && (ops[p2op].opcode in YIELD || ops[m].p1 != 0))
  }

  /** The loop that ends at `m` has `k` inside. */
  predicate Spans(ops: seq<Op>, m: nat, k: nat)
    requires m < |ops|
  {
    Indents(ops, m) && Target(ops, m) <= k < m
  }

  /** The loops around `k` among those that end before place `n`. */
  function Loops(ops: seq<Op>, k: nat, n: nat): (r: set<nat>)
    requires n <= |ops|
  {
    set m | 0 <= m < n && Spans(ops, m, k)
  }

  /** The jumps of loops and gotos stay in the listing, as those of compiled programs do. */
  predicate Forward(ops: seq<Op>) {
    forall m | 0 <= m < |ops| && (ops[m].opcode in NEXT || ops[m].opcode in GOTO) :: Target(ops, m) >= 0
  }

  lemma OneMoreOp(ops: seq<Op>, k: nat, n: nat)
    requires n < |ops|
    ensures |Loops(ops, k, n + 1)| == |Loops(ops, k, n)| + (if Spans(ops, n, k) then 1 else 0)
  {
    assert Loops(ops, k, n + 1) == Loops(ops, k, n) + (if Spans(ops, n, k) then {n} else {});
  }

  /** Of two loops that have a place in common one lies within the other. */
  ghost predicate Nested(ops: seq<Op>) {
    forall a, b | 0 <= a < b < |ops| && Indents(ops, a) && Indents(ops, b) :: Target(ops, b) <= a ==> Target(ops, b) <= Target(ops, a)
  }

  /** Where loops nest, what a loop holds is indented more than the opcode that ends it. */
  lemma BodyIsDeeper(ops: seq<Op>, m: nat, k: nat)
    requires Nested(ops) && m < |ops| && Spans(ops, m, k)
    ensures |Loops(ops, m, |ops|)| < |Loops(ops, k, |ops|)|
  {
    var around, inside := Loops(ops, m, |ops|), Loops(ops, k, |ops|);
    forall b | b in around ensures b in inside {
      assert Spans(ops, b, m) && Indents(ops, m);
    }
    assert m in inside && m !in around;
    Smaller(around + {m}, inside);
  }

  lemma {:induction false} Smaller(a: set<nat>, b: set<nat>)
    requires a <= b
    ensures |a| <= |b|
  {
    if a != {} {
      var x :| x in a;
      Smaller(a - {x}, b - {x});
    }
  }

  // ---- The rule as the comment has it ----

  const DOC_NEXT: seq<string> := ["Next", "Prev", "VNext", "VPrev"]

  /** Only four opcodes and gotos with a P1 of one. Its SeekGt and SeekLt are the opcodes SeekGT and SeekLT. */
  predicate DocIndents(ops: seq<Op>, m: nat)
    requires m < |ops|
  {
    var p2op := Target(ops, m);
    ops[m].opcode in DOC_NEXT ||
    (ops[m].opcode in GOTO && 0 <= p2op <= m && (ops[p2op].opcode in YIELD || ops[m].p1 == 1))
  }

  function DocLoops(ops: seq<Op>, k: nat): (loops: set<nat>) {
    set m | 0 <= m < |ops| && DocIndents(ops, m) && Target(ops, m) <= k < m
  }

  lemma DocIsRule(ops: seq<Op>, m: nat)
    requires m < |ops| && DocIndents(ops, m)
    ensures Indents(ops, m)
  {
    if ops[m].opcode in DOC_NEXT {
      assert NEXT[0] == "Next" && NEXT[1] == "Prev" && NEXT[2] == "VPrev" && NEXT[3] == "VNext";
    }
  }

  lemma {:induction false} SameSize(a: set<nat>, b: set<nat>)
    requires a <= b && |a| == |b|
    ensures a == b
  {
    if x :| x in b && x !in a {
      Smaller(a + {x}, b);
    }
  }

  /** The code indents every opcode as the comment says exactly if what it takes for the end of a loop and
      the comment does not has nothing before it in its loop. */
  lemma IndentedAsDocumented(ops: seq<Op>)
    requires Forward(ops)
    ensures (forall k | 0 <= k < |ops| :: |DocLoops(ops, k)| == |Loops(ops, k, |ops|)|)
      <==> forall m | 0 <= m < |ops| && Indents(ops, m) && !DocIndents(ops, m) :: Target(ops, m) >= m
  {
    forall k, m | 0 <= k < |ops| && m in DocLoops(ops, k) ensures m in Loops(ops, k, |ops|) {
      DocIsRule(ops, m);
    }
    if forall k | 0 <= k < |ops| :: |DocLoops(ops, k)| == |Loops(ops, k, |ops|)| {
      forall m | 0 <= m < |ops| && Indents(ops, m) && !DocIndents(ops, m) ensures Target(ops, m) >= m {
        var k := Target(ops, m);
        if k < m {
          assert m in Loops(ops, k, |ops|) && m !in DocLoops(ops, k);
          SameSize(DocLoops(ops, k), Loops(ops, k, |ops|));
        }
      }
    }
    if forall m | 0 <= m < |ops| && Indents(ops, m) && !DocIndents(ops, m) :: Target(ops, m) >= m {
      forall k | 0 <= k < |ops| ensures DocLoops(ops, k) == Loops(ops, k, |ops|) {}
    }
  }

  /** A sorter's loop is indented by the code but not by the comment. */
  lemma SorterIsIndented()
    ensures var ops := [Op(0, "SorterData", 0, 0), Op(1, "SorterNext", 0, 0)];
      Forward(ops) && DocLoops(ops, 0) == {} && Loops(ops, 0, 2) == {1}
  {
    var ops := [Op(0, "SorterData", 0, 0), Op(1, "SorterNext", 0, 0)];
    assert NEXT[4] == "SorterNext";
    assert "SorterNext" !in DOC_NEXT && "SorterNext" !in GOTO && "SorterData" !in NEXT && "SorterData" !in GOTO && "SorterData" !in DOC_NEXT by {
      assert |"SorterNext"| == 10 && |"SorterData"| == 10;
      assert forall w | w in DOC_NEXT :: |w| <= 5;
      assert NEXT[4][6] == 'N' && "SorterData"[6] == 'D';
      assert "NextIfOpen"[0] == 'N' && "PrevIfOpen"[0] == 'P';
    }
    assert Target(ops, 1) == 0 && Target(ops, 0) == 0;
    assert Spans(ops, 1, 0) && !Spans(ops, 0, 0);
  }

  /** Which opcodes end a loop, in words. */
  lemma IndentsInWords(ops: seq<Op>, m: nat)
    requires m < |ops|
    ensures var (op, t) := (ops[m].opcode, m + ops[m].p2 - ops[m].addr);
      Indents(ops, m) <==>
        || op == "Next" || op == "Prev" || op == "VPrev" || op == "VNext"
        || op == "SorterNext" || op == "NextIfOpen" || op == "PrevIfOpen"
        || (op == "Goto" && 0 <= t <= m && (ops[m].p1 != 0
            || ops[t].opcode == "Yield" || ops[t].opcode == "SeekLT" || ops[t].opcode == "SeekGT"
            || ops[t].opcode == "RowSetRead" || ops[t].opcode == "Rewind"))
  {
    assert NEXT[0] == "Next" && NEXT[1] == "Prev" && NEXT[2] == "VPrev" && NEXT[3] == "VNext" && NEXT[4] == "SorterNext"
      && NEXT[5] == "NextIfOpen" && NEXT[6] == "PrevIfOpen" && GOTO[0] == "Goto";
    assert YIELD[0] == "Yield" && YIELD[1] == "SeekLT" && YIELD[2] == "SeekGT" && YIELD[3] == "RowSetRead" && YIELD[4] == "Rewind";
  }

  lemma LoopsInWords(ops: seq<Op>, k: nat)
    ensures Loops(ops, k, |ops|) == set m | 0 <= m < |ops| && Indents(ops, m) && m + ops[m].p2 - ops[m].addr <= k < m
  {}

  // ---- The code ----

  method StrInArray(z: string, az: seq<string>) returns (found: bool)
    ensures found <==> z in az
  {
    for i := 0 to |az|
      invariant z !in az[..i]
    {
      if z == az[i] {
        return true;
      }
    }
    return false;
  }

  /** A statement: the names of its columns, its text, and the rows it returns. */
  datatype Statement = Statement(columns: seq<string>, sql: Option<string>, ops: seq<Op>)

  function ExplainColumns(): (r: seq<string>) { ["addr", "opcode", "p1", "p2", "p3", "p4", "p5", "comment"] }

  predicate IsBlank(c: char) { c == ' ' || c == '\t' || c == '\n' || c == 12 as char || c == '\r' }

  /** `indent` holds the rule's indentation of the first `n` opcodes, counting loops that end before `n`. */
  ghost predicate IndentedTo(indent: seq<int>, ops: seq<Op>, n: nat)
    requires n <= |ops|
  {
    n <= |indent| && forall k | 0 <= k < n :: indent[k] == 2 * |Loops(ops, k, n)|
  }

  lemma NotAroundYet(ops: seq<Op>, n: nat)
    requires n < |ops|
    ensures Loops(ops, n, n + 1) == {}
  {}

  /** Whether the text, after blanks, starts with the word. */
  method StartsExplain(sql: string) returns (yes: bool)
    ensures yes <==> exists i | 0 <= i <= |sql| :: (forall k | 0 <= k < i :: IsBlank(sql[k])) && HasPrefix("explain", sql[i..])
  {
    hide HasPrefix;
    var i := 0;
    while i < |sql| && IsBlank(sql[i])
      invariant i <= |sql| && forall k | 0 <= k < i :: IsBlank(sql[k])
      invariant forall k | 0 <= k < i :: !HasPrefix("explain", sql[k..])
    {
      NoBlankWord(sql, i);
      i := i + 1;
    }
    yes := SameStart("explain", sql[i..]);
  }

  /** The text is an EXPLAIN exactly if the letters of the word, in either case, come after blanks. */
  lemma StartInCodes(sql: string, i: nat)
    requires i <= |sql|
    ensures (forall k | 0 <= k < i :: IsBlank(sql[k])) && HasPrefix("explain", sql[i..]) <==>
      && (forall k | 0 <= k < i :: sql[k] as int in {9, 10, 12, 13, 32})
      && |sql| >= i + 7 && Alike('e', sql[i]) && Alike('x', sql[i + 1]) && Alike('p', sql[i + 2])
      && Alike('l', sql[i + 3]) && Alike('a', sql[i + 4]) && Alike('i', sql[i + 5]) && Alike('n', sql[i + 6])
  {
    PrefixInCodes("explain", sql[i..]);
    hide HasPrefix;
    assert |sql| >= i + 7 ==> forall k | 0 <= k < 7 :: sql[i..][k] == sql[i + k];
  }

  lemma NoBlankWord(sql: string, i: nat)
    requires i < |sql| && IsBlank(sql[i])
    ensures !HasPrefix("explain", sql[i..])
  {
    assert Upper("explain"[0]) != Upper(sql[i..][0]);
  }

  /** realloc() to `n` ints. */
  method Grow(a: array<int>, n: nat) returns (b: array<int>)
    requires a.Length <= n
    ensures fresh(b) && b.Length == n && b[..a.Length] == a[..]
  {
    b := new int[n];
    var i := 0;
    while i < a.Length
      invariant i <= a.Length && b[..i] == a[..i]
    {
      b[i] := a[i];
      i := i + 1;
    }
  }

  /** One of the two indenting loops. */
  method IndentSpan(indent: array<int>, from: int, to: nat)
    requires 0 <= from && to <= indent.Length
    modifies indent
    ensures forall k | 0 <= k < indent.Length :: indent[k] == old(indent[k]) + (if from <= k < to then 2 else 0)
  {
    var i := from;
    while i < to
      invariant from <= i && (i <= to || i == from)
      invariant forall k | 0 <= k < indent.Length :: indent[k] == old(indent[k]) + (if from <= k < i && k < to then 2 else 0)
    {
      indent[i] := indent[i] + 2;
      i := i + 1;
    }
  }

  /** One row of the listing, once there is room for it. */
  method IndentOp(indent: array<int>, abYield: array<int>, ops: seq<Op>, iOp: nat)
    requires indent != abYield && iOp < |ops| && Forward(ops) && iOp < indent.Length && iOp < abYield.Length
    requires IndentedTo(indent[..], ops, iOp) && forall k | 0 <= k < iOp :: (abYield[k] != 0 <==> ops[k].opcode in YIELD)
    modifies indent, abYield
    ensures IndentedTo(indent[..], ops, iOp + 1) && forall k | 0 <= k <= iOp :: (abYield[k] != 0 <==> ops[k].opcode in YIELD)
  {
    hide Loops;
    var op := ops[iOp];
    var p2op := op.p2 + (iOp - op.addr);
    var isYield := StrInArray(op.opcode, YIELD);
    abYield[iOp] := if isYield then 1 else 0;
    indent[iOp] := 0;
    NotAroundYet(ops, iOp);
    forall k | 0 <= k < iOp ensures |Loops(ops, k, iOp + 1)| == |Loops(ops, k, iOp)| + (if Spans(ops, iOp, k) then 1 else 0) {
      OneMoreOp(ops, k, iOp);
    }
    NextIsNotGoto(op.opcode);
    var next := StrInArray(op.opcode, NEXT);
    if next {
      IndentSpan(indent, p2op, iOp);
    }
    var goto := StrInArray(op.opcode, GOTO);
    if goto && p2op < iOp + 1 && (abYield[p2op] != 0 || op.p1 != 0) {
      IndentSpan(indent, p2op, iOp);
    }
  }

  lemma NextIsNotGoto(opcode: string)
    ensures !(opcode in NEXT && opcode in GOTO)
  {
    if opcode in GOTO {
      assert opcode == "Goto";
      assert forall k | 0 <= k < |NEXT| :: |NEXT[k]| == 4 ==> NEXT[k][0] != 'G';
    }
  }

  class ShellState {
    var mode: int
    var cMode: int
    /** A buffer of ints; `None` is the null pointer. */
    var aiIndent: Option<array<int>>
    var nIndent: nat
    var iIndent: nat

    constructor (mode: int, cMode: int)
      ensures this.mode == mode && this.cMode == cMode && aiIndent == None && nIndent == 0
    {
      this.mode, this.cMode, aiIndent, nIndent, iIndent := mode, cMode, None, 0, 0;
    }

    /** Of an EXPLAIN statement, records twice the number of loops around each opcode. Of any other,
        goes back to the permanent output mode. */
    method ExplainDataPrepare(st: Statement)
      requires aiIndent == None && nIndent == 0 && Forward(st.ops)
      modifies this
      ensures mode == old(mode)
      ensures if |st.columns| == 8 && st.sql.Some?
          && (exists i | 0 <= i <= |st.sql.value| ::
              (forall k | 0 <= k < i :: IsBlank(st.sql.value[k])) && HasPrefix("explain", st.sql.value[i..]))
          && (st.ops == [] || st.columns == ["addr", "opcode", "p1", "p2", "p3", "p4", "p5", "comment"]) then
          && cMode == old(cMode) && nIndent == |st.ops| && iIndent == 0
          && (st.ops != [] ==> aiIndent.Some? && |st.ops| <= aiIndent.value.Length)
          && forall k | 0 <= k < |st.ops| :: aiIndent.value[k] == 2 * |Loops(st.ops, k, |st.ops|)|
        else
          aiIndent == None && nIndent == 0 && cMode == if |st.columns| == 8 && st.sql == None then old(cMode) else mode
    {
      hide HasPrefix, Loops;
      if |st.columns| != 8 {
        cMode := mode;
        return;
      }
      if st.sql == None {
        return;
      }
      var yes := StartsExplain(st.sql.value);
      if !yes {
        cMode := mode;
        return;
      }
      var indent, abYield := new int[0], new int[0];
      var iOp, nAlloc := 0, 0;
      while iOp < |st.ops|
        invariant iOp <= |st.ops| && fresh(indent) && fresh(abYield) && indent != abYield && indent.Length == abYield.Length == nAlloc
        invariant IndentedTo(indent[..], st.ops, iOp) && forall k | 0 <= k < iOp :: (abYield[k] != 0 <==> st.ops[k].opcode in YIELD)
        invariant mode == old(mode) && cMode == old(cMode) && nIndent == iOp
        invariant if iOp == 0 then aiIndent == None && nAlloc == 0 else aiIndent == Some(indent) && st.columns == ExplainColumns()
      {
        if iOp >= nAlloc {
          if iOp == 0 && st.columns != ExplainColumns() {
            cMode := mode;
            return;
          }
          nAlloc := nAlloc + 100;
          var old1, old2 := indent, abYield;
          indent := Grow(indent, nAlloc);
          abYield := Grow(abYield, nAlloc);
          aiIndent := Some(indent);
          assert forall k | 0 <= k < iOp :: indent[k] == old1[..][k] && abYield[k] == old2[..][k];
        }
        nIndent := iOp + 1;
        IndentOp(indent, abYield, st.ops, iOp);
        iOp := iOp + 1;
      }
      iIndent := 0;
    }
  }
}
