/** The table of round constants is the one FIPS 202 generates with its shift register. */
module RoundConstants {
  import opened MachineWords
  import opened Fips202

  /** The table RC[] of the source. */
  function RC(i: nat): (r: nat)
    requires i < 24
  {
    match i
    case 0 => 0x0000000000000001
    case 1 => 0x0000000000008082
    case 2 => 0x800000000000808a
    case 3 => 0x8000000080008000
    case 4 => 0x000000000000808b
    case 5 => 0x0000000080000001
    case 6 => 0x8000000080008081
    case 7 => 0x8000000000008009
    case 8 => 0x000000000000008a
    case 9 => 0x0000000000000088
    case 10 => 0x0000000080008009
    case 11 => 0x000000008000000a
    case 12 => 0x000000008000808b
    case 13 => 0x800000000000008b
    case 14 => 0x8000000000008089
    case 15 => 0x8000000000008003
    case 16 => 0x8000000000008002
    case 17 => 0x8000000000000080
    case 18 => 0x000000000000800a
    case 19 => 0x800000008000000a
    case 20 => 0x8000000080008081
    case 21 => 0x8000000000008080
    case 22 => 0x0000000080000001
    case _ => 0x8000000080008008
  }

  /** `n` shifted left by `k` places. */
  function Doubled(n: nat, k: nat): (r: nat) { if k == 0 then n else 2 * Doubled(n, k - 1) }

  lemma {:induction false} ZeroRun(n: nat, k: nat, len: nat)
    ensures BitsOf(Doubled(n, k), k + len) == Zeros(k) + BitsOf(n, len)
  {
    if k == 0 {
      assert Zeros(0) + BitsOf(n, len) == BitsOf(n, len);
    } else {
      ZeroRun(n, k - 1, len);
      BitsOfCons(Doubled(n, k), k + len);
      assert Doubled(n, k) / 2 == Doubled(n, k - 1);
      assert Zeros(k) == [false] + Zeros(k - 1);
    }
  }

  /** The number whose binary digits are the sparse bits. */
  function Value(s: Sparse): (r: nat) {
    match s
    case Last(b) => if b then 1 else 0
    case Then(b, gap, rest) => (if b then 1 else 0) + 2 * Doubled(Value(rest), gap)
  }

  lemma {:induction false} BitsOfValue(s: Sparse)
    ensures BitsOf(Value(s), s.Size()) == s.Bits()
  {
    match s
    case Last(b) =>
    case Then(b, gap, rest) =>
      BitsOfValue(rest);
      ZeroRun(Value(rest), gap, rest.Size());
      BitsOfCons(Value(s), s.Size());
      assert Value(s) / 2 == Doubled(Value(rest), gap);
  }

  lemma DoubledFour(n: nat, k: nat)
    ensures Doubled(n, k + 4) == 0x10 * Doubled(n, k)
  {
    assert Doubled(n, k + 1) == 2 * Doubled(n, k);
    assert Doubled(n, k + 2) == 2 * Doubled(n, k + 1);
    assert Doubled(n, k + 3) == 2 * Doubled(n, k + 2);
  }

  lemma {:induction false} Runs(n: nat)
    ensures Doubled(n, 0) == n && Doubled(n, 1) == 2 * n && Doubled(n, 3) == 8 * n && Doubled(n, 7) == 0x80 * n
    ensures Doubled(n, 15) == 0x8000 * n && Doubled(n, 31) == 0x80000000 * n
  {
    assert Doubled(n, 1) == 2 * n;
    assert Doubled(n, 2) == 2 * Doubled(n, 1);
    assert Doubled(n, 3) == 2 * Doubled(n, 2);
    DoubledFour(n, 3);
    DoubledFour(n, 7);
    DoubledFour(n, 11);
    DoubledFour(n, 15);
    DoubledFour(n, 19);
    DoubledFour(n, 23);
    DoubledFour(n, 27);
  }

  function N(b: bool): (r: nat) { if b then 1 else 0 }

  lemma SparseValue(b0: bool, b1: bool, b2: bool, b3: bool, b4: bool, b5: bool, b6: bool)
    ensures Value(SparseBits(b0, b1, b2, b3, b4, b5, b6)) ==
      N(b0) + 2 * (N(b1) + 4 * (N(b2) + 0x10 * (N(b3) + 0x100 * (N(b4) + 0x10000 * (N(b5) + 0x100000000 * N(b6))))))
  {
    hide Doubled;
    var n6 := N(b6);
    Runs(n6);
    var n5 := N(b5) + 2 * (0x80000000 * n6);
    Runs(n5);
    var n4 := N(b4) + 2 * (0x8000 * n5);
    Runs(n4);
    var n3 := N(b3) + 2 * (0x80 * n4);
    Runs(n3);
    var n2 := N(b2) + 2 * (8 * n3);
    Runs(n2);
    var n1 := N(b1) + 2 * (2 * n2);
    Runs(n1);
    var s := SparseBits(b0, b1, b2, b3, b4, b5, b6);
    assert Value(s.rest.rest.rest.rest.rest.rest) == n6;
    assert Value(s.rest.rest.rest.rest.rest) == n5;
    assert Value(s.rest.rest.rest.rest) == n4;
    assert Value(s.rest.rest.rest) == n3;
    assert Value(s.rest.rest) == n2;
    assert Value(s.rest) == n1;
  }

  ghost predicate RcAgrees(i: nat)
    requires i < 24
  {
    U64(RC(i)) == RoundConstant(i)
  }

  /** Seven steps of the register give one round constant and the register of the next round. */
  lemma {:induction false} Constant(i: nat, r: Lfsr, r': Lfsr, b0: bool, b1: bool, b2: bool, b3: bool, b4: bool, b5: bool, b6: bool, rc: nat)
    requires Register(7 * i) == r
    requires r' == r.Next().Next().Next().Next().Next().Next().Next()
    requires b0 == r.r0 && b1 == r.Next().r0 && b2 == r.Next().Next().r0 && b3 == r.Next().Next().Next().r0
    requires b4 == r.Next().Next().Next().Next().r0 && b5 == r.Next().Next().Next().Next().Next().r0
    requires b6 == r.Next().Next().Next().Next().Next().Next().r0
    requires rc == N(b0) + 2 * (N(b1) + 4 * (N(b2) + 0x10 * (N(b3) + 0x100 * (N(b4) + 0x10000 * (N(b5) + 0x100000000 * N(b6))))))
    ensures U64(rc) == RoundConstant(i) && Register(7 * i + 7) == r'
  {
    assert RoundConstant(i) == SparseWord(b0, b1, b2, b3, b4, b5, b6) && Register(7 * i + 7) == r' by {
      hide SparseWord;
      var t := 7 * i;
      assert Register(t + 1) == r.Next();
      assert Register(t + 2) == Register(t + 1).Next();
      assert Register(t + 3) == Register(t + 2).Next();
      assert Register(t + 4) == Register(t + 3).Next();
      assert Register(t + 5) == Register(t + 4).Next();
      assert Register(t + 6) == Register(t + 5).Next();
    }
    hide RoundConstant, Register;
    SparseValue(b0, b1, b2, b3, b4, b5, b6);
    BitsOfValue(SparseBits(b0, b1, b2, b3, b4, b5, b6));
  }

  /** One round, against its entry of the table. */
  lemma {:induction false} Entry(i: nat, r: Lfsr, r': Lfsr, b0: bool, b1: bool, b2: bool, b3: bool, b4: bool, b5: bool, b6: bool, rc: nat)
    requires i < 24 && RC(i) == rc && Register(7 * i) == r
    requires r' == r.Next().Next().Next().Next().Next().Next().Next()
    requires b0 == r.r0 && b1 == r.Next().r0 && b2 == r.Next().Next().r0 && b3 == r.Next().Next().Next().r0
    requires b4 == r.Next().Next().Next().Next().r0 && b5 == r.Next().Next().Next().Next().Next().r0
    requires b6 == r.Next().Next().Next().Next().Next().Next().r0
    requires rc == N(b0) + 2 * (N(b1) + 4 * (N(b2) + 0x10 * (N(b3) + 0x100 * (N(b4) + 0x10000 * (N(b5) + 0x100000000 * N(b6))))))
    ensures RcAgrees(i) && Register(7 * (i + 1)) == r'
  {
    hide RoundConstant, U64, RC, Register;
    Constant(i, r, r', b0, b1, b2, b3, b4, b5, b6, rc);
    assert 7 * (i + 1) == 7 * i + 7;
  }

  lemma TableEntries(z: nat)
    requires z == 0
    ensures RC(z) == 0x0000000000000001 && RC(z + 1) == 0x0000000000008082 && RC(z + 2) == 0x800000000000808a && RC(z + 3) == 0x8000000080008000
    ensures RC(z + 4) == 0x000000000000808b && RC(z + 5) == 0x0000000080000001 && RC(z + 6) == 0x8000000080008081 && RC(z + 7) == 0x8000000000008009
    ensures RC(z + 8) == 0x000000000000008a && RC(z + 9) == 0x0000000000000088 && RC(z + 10) == 0x0000000080008009 && RC(z + 11) == 0x000000008000000a
    ensures RC(z + 12) == 0x000000008000808b && RC(z + 13) == 0x800000000000008b && RC(z + 14) == 0x8000000000008089 && RC(z + 15) == 0x8000000000008003
    ensures RC(z + 16) == 0x8000000000008002 && RC(z + 17) == 0x8000000000000080 && RC(z + 18) == 0x000000000000800a && RC(z + 19) == 0x800000008000000a
    ensures RC(z + 20) == 0x8000000080008081 && RC(z + 21) == 0x8000000000008080 && RC(z + 22) == 0x0000000080000001 && RC(z + 23) == 0x8000000080008008
  {}

  lemma {:induction false} Constants0(i: nat)
    requires i <= 20 && Register(7 * i) == Lfsr(true, false, false, false, false, false, false, false)
    requires RC(i) == 0x0000000000000001 && RC(i + 1) == 0x0000000000008082
    requires RC(i + 2) == 0x800000000000808a && RC(i + 3) == 0x8000000080008000
    ensures forall k | i <= k < i + 4 :: RcAgrees(k)
    ensures Register(7 * (i + 4)) == Lfsr(true, true, true, true, true, false, true, true)
  {
    hide RcAgrees, Register, RC;
    Entry(i, Lfsr(true, false, false, false, false, false, false, false), Lfsr(false, false, false, false, false, false, false, true),
      true, false, false, false, false, false, false, 0x0000000000000001);
    Entry(i + 1, Lfsr(false, false, false, false, false, false, false, true), Lfsr(false, false, false, true, true, false, true, true),
      false, true, false, true, true, false, false, 0x0000000000008082);
    Entry(i + 2, Lfsr(false, false, false, true, true, false, true, true), Lfsr(false, true, false, true, true, false, false, false),
      false, true, true, true, true, false, true, 0x800000000000808a);
    Entry(i + 3, Lfsr(false, true, false, true, true, false, false, false), Lfsr(true, true, true, true, true, false, true, true),
      false, false, false, false, true, true, true, 0x8000000080008000);
  }

  lemma {:induction false} Constants4(i: nat)
    requires i <= 20 && Register(7 * i) == Lfsr(true, true, true, true, true, false, true, true)
    requires RC(i) == 0x000000000000808b && RC(i + 1) == 0x0000000080000001
    requires RC(i + 2) == 0x8000000080008081 && RC(i + 3) == 0x8000000000008009
    ensures forall k | i <= k < i + 4 :: RcAgrees(k)
    ensures Register(7 * (i + 4)) == Lfsr(false, true, false, true, false, false, true, true)
  {
    hide RcAgrees, Register, RC;
    Entry(i, Lfsr(true, true, true, true, true, false, true, true), Lfsr(true, false, false, true, false, false, false, false),
      true, true, true, true, true, false, false, 0x000000000000808b);
    Entry(i + 1, Lfsr(true, false, false, true, false, false, false, false), Lfsr(true, false, true, false, true, true, false, false),
      true, false, false, false, false, true, false, 0x0000000080000001);
    Entry(i + 2, Lfsr(true, false, true, false, true, true, false, false), Lfsr(true, true, true, true, false, false, true, false),
      true, false, false, true, true, true, true, 0x8000000080008081);
    Entry(i + 3, Lfsr(true, true, true, true, false, false, true, false), Lfsr(false, true, false, true, false, false, true, true),
      true, false, true, false, true, false, true, 0x8000000000008009);
  }

  lemma {:induction false} Constants8(i: nat)
    requires i <= 20 && Register(7 * i) == Lfsr(false, true, false, true, false, false, true, true)
    requires RC(i) == 0x000000000000008a && RC(i + 1) == 0x0000000000000088
    requires RC(i + 2) == 0x0000000080008009 && RC(i + 3) == 0x000000008000000a
    ensures forall k | i <= k < i + 4 :: RcAgrees(k)
    ensures Register(7 * (i + 4)) == Lfsr(true, false, true, false, true, false, true, true)
  {
    hide RcAgrees, Register, RC;
    Entry(i, Lfsr(false, true, false, true, false, false, true, true), Lfsr(false, false, false, false, true, true, true, false),
      false, true, true, true, false, false, false, 0x000000000000008a);
    Entry(i + 1, Lfsr(false, false, false, false, true, true, true, false), Lfsr(true, false, false, false, false, false, true, false),
      false, false, true, true, false, false, false, 0x0000000000000088);
    Entry(i + 2, Lfsr(true, false, false, false, false, false, true, false), Lfsr(false, false, true, true, false, true, true, true),
      true, false, true, false, true, true, false, 0x0000000080008009);
    Entry(i + 3, Lfsr(false, false, true, true, false, true, true, true), Lfsr(true, false, true, false, true, false, true, true),
      false, true, true, false, false, true, false, 0x000000008000000a);
  }

  lemma {:induction false} Constants12(i: nat)
    requires i <= 20 && Register(7 * i) == Lfsr(true, false, true, false, true, false, true, true)
    requires RC(i) == 0x000000008000808b && RC(i + 1) == 0x800000000000008b
    requires RC(i + 2) == 0x8000000000008089 && RC(i + 3) == 0x8000000000008003
    ensures forall k | i <= k < i + 4 :: RcAgrees(k)
    ensures Register(7 * (i + 4)) == Lfsr(false, true, false, true, false, true, false, true)
  {
    hide RcAgrees, Register, RC;
    Entry(i, Lfsr(true, false, true, false, true, false, true, true), Lfsr(true, false, true, true, false, false, true, true),
      true, true, true, true, true, true, false, 0x000000008000808b);
    Entry(i + 1, Lfsr(true, false, true, true, false, false, true, true), Lfsr(true, true, false, false, false, true, true, false),
      true, true, true, true, false, false, true, 0x800000000000008b);
    Entry(i + 2, Lfsr(true, true, false, false, false, true, true, false), Lfsr(true, true, false, true, false, true, false, true),
      true, false, true, true, true, false, true, 0x8000000000008089);
    Entry(i + 3, Lfsr(true, true, false, true, false, true, false, true), Lfsr(false, true, false, true, false, true, false, true),
      true, true, false, false, true, false, true, 0x8000000000008003);
  }

  lemma {:induction false} Constants16(i: nat)
    requires i <= 20 && Register(7 * i) == Lfsr(false, true, false, true, false, true, false, true)
    requires RC(i) == 0x8000000000008002 && RC(i + 1) == 0x8000000000000080
    requires RC(i + 2) == 0x000000000000800a && RC(i + 3) == 0x800000008000000a
    ensures forall k | i <= k < i + 4 :: RcAgrees(k)
    ensures Register(7 * (i + 4)) == Lfsr(true, true, true, false, true, true, false, false)
  {
    hide RcAgrees, Register, RC;
    Entry(i, Lfsr(false, true, false, true, false, true, false, true), Lfsr(false, true, false, true, false, true, false, false),
      false, true, false, false, true, false, true, 0x8000000000008002);
    Entry(i + 1, Lfsr(false, true, false, true, false, true, false, false), Lfsr(false, true, false, false, true, true, true, true),
      false, false, false, true, false, false, true, 0x8000000000000080);
    Entry(i + 2, Lfsr(false, true, false, false, true, true, true, true), Lfsr(false, false, false, true, false, true, true, true),
      false, true, true, false, true, false, false, 0x000000000000800a);
    Entry(i + 3, Lfsr(false, false, false, true, false, true, true, true), Lfsr(true, true, true, false, true, true, false, false),
      false, true, true, false, false, true, true, 0x800000008000000a);
  }

  lemma {:induction false} Constants20(i: nat)
    requires i <= 20 && Register(7 * i) == Lfsr(true, true, true, false, true, true, false, false)
    requires RC(i) == 0x8000000080008081 && RC(i + 1) == 0x8000000000008080
    requires RC(i + 2) == 0x0000000080000001 && RC(i + 3) == 0x8000000080008008
    ensures forall k | i <= k < i + 4 :: RcAgrees(k)
    ensures Register(7 * (i + 4)) == Lfsr(false, true, true, true, false, false, false, true)
  {
    hide RcAgrees, Register, RC;
    Entry(i, Lfsr(true, true, true, false, true, true, false, false), Lfsr(false, true, true, true, true, true, false, false),
      true, false, false, true, true, true, true, 0x8000000080008081);
    Entry(i + 1, Lfsr(false, true, true, true, true, true, false, false), Lfsr(true, true, false, true, false, false, false, false),
      false, false, false, true, true, false, true, 0x8000000000008080);
    Entry(i + 2, Lfsr(true, true, false, true, false, false, false, false), Lfsr(false, false, true, false, false, false, true, false),
      true, false, false, false, false, true, false, 0x0000000080000001);
    Entry(i + 3, Lfsr(false, false, true, false, false, false, true, false), Lfsr(false, true, true, true, false, false, false, true),
      false, false, true, false, true, true, true, 0x8000000080008008);
  }

  /** Every entry of the table is the round constant of its round. */
  lemma TableIsGenerated(i: nat)
    requires i < 24
    ensures U64(RC(i)) == RoundConstant(i)
  {
    AllAgree(0);
    hide RoundConstant, U64;
    assert RcAgrees(i);
  }

  lemma AllAgree(z: nat)
    requires z == 0
    ensures forall i | 0 <= i < 24 :: RcAgrees(i)
  {
    hide RcAgrees, RC;
    TableEntries(z);
    assert Register(7 * z) == Lfsr(true, false, false, false, false, false, false, false);
    hide Register;
    Constants0(z);
    Constants4(z + 4);
    Constants8(z + 8);
    Constants12(z + 12);
    Constants16(z + 16);
    Constants20(z + 20);
  }
}
