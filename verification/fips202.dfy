/** The permutation KECCAK-p[1600, 24] of FIPS 202, sections 3.1 to 3.4, on single bits.

    A state array A[x, y, z] is a sequence of 25 lanes of 64 bits with A[x, y, z] stored as
    bit `z` of lane `5y + x`, the order in which section 3.1.2 reads the state string. */
module Fips202 {
  import opened MachineWords

  type Coord = i: nat | i < 5
  type Depth = z: nat | z < 64
  type State = s: seq<u64> | |s| == 25 witness seq(25, _ => Zeros(64))

  /** Remainder modulo five of the small sums that index lanes, written as a case split. */
  function Mod5(n: int): (r: Coord)
    requires -5 <= n < 30
  {
    if n < 0 then n + 5 else if n < 5 then n else if n < 10 then n - 5 else if n < 15 then n - 10
    else if n < 20 then n - 15 else if n < 25 then n - 20 else n - 25
  }

  lemma Mod5IsRemainder(n: int)
    requires -5 <= n < 30
    ensures Mod5(n) == n % 5
  {}

  function Lane(a: State, x: Coord, y: Coord): (r: u64) { a[5 * y + x] }

  predicate Bit(a: State, x: Coord, y: Coord, z: Depth) { Lane(a, x, y)[z] }

  function FromLanes(f: (Coord, Coord) -> u64): (a: State)
    ensures forall x: Coord, y: Coord :: Lane(a, x, y) == f(x, y)
  {
    var a := seq(25, i requires 0 <= i < 25 => f(i % 5, i / 5));
    assert forall x: Coord, y: Coord {:trigger Lane(a, x, y)} :: (5 * y + x) % 5 == x && (5 * y + x) / 5 == y;
    a
  }

  function FromBits(f: (Coord, Coord, Depth) -> bool): (a: State)
    ensures forall x: Coord, y: Coord, z: Depth :: Bit(a, x, y, z) == f(x, y, z)
  {
    FromLanes((x: Coord, y: Coord) => seq(64, z requires 0 <= z < 64 => f(x, y, z)))
  }

  lemma SameLanes(a: State, b: State)
    requires forall x: Coord, y: Coord :: Lane(a, x, y) == Lane(b, x, y)
    ensures a == b
  {
    forall i | 0 <= i < 25 ensures a[i] == b[i] {
      assert Lane(a, i % 5, i / 5) == Lane(b, i % 5, i / 5);
    }
  }

  // ---- Section 3.2: the step mappings ----

  predicate X(p: bool, q: bool) { p != q }

  predicate C(a: State, x: Coord, z: Depth) {
    X(X(X(X(Bit(a, x, 0, z), Bit(a, x, 1, z)), Bit(a, x, 2, z)), Bit(a, x, 3, z)), Bit(a, x, 4, z))
  }

  predicate D(a: State, x: Coord, z: Depth) {
    X(C(a, Mod5(x - 1), z), C(a, Mod5(x + 1), (z - 1) % 64))
  }

  function Theta(a: State): (r: State) {
    FromBits((x: Coord, y: Coord, z: Depth) => X(Bit(a, x, y, z), D(a, x, z)))
  }

  /** Table 2 of the standard, modulo the lane size. */
  function Offset(x: Coord, y: Coord): (r: nat)
    ensures r < 64
  {
    if y == 0 then (if x == 0 then 0 else if x == 1 then 1 else if x == 2 then 62 else if x == 3 then 28 else 27)
    else if y == 1 then (if x == 0 then 36 else if x == 1 then 44 else if x == 2 then 6 else if x == 3 then 55 else 20)
    else if y == 2 then (if x == 0 then 3 else if x == 1 then 10 else if x == 2 then 43 else if x == 3 then 25 else 39)
    else if y == 3 then (if x == 0 then 41 else if x == 1 then 45 else if x == 2 then 15 else if x == 3 then 21 else 8)
    else (if x == 0 then 18 else if x == 1 then 2 else if x == 2 then 61 else if x == 3 then 56 else 14)
  }

  /** The lane visited at step `t` of Algorithm 2, which defines the offsets. */
  function Walk(t: nat): (r: (Coord, Coord)) {
    if t == 0 then (1, 0) else var (x, y) := Walk(t - 1); (y, Mod5(2 * x + 3 * y))
  }

  /** At step `t` Algorithm 2 assigns the triangular number of `t + 1` to the lane it visits. */
  predicate WalkAgrees(t: nat) {
    Offset(Walk(t).0, Walk(t).1) == (t + 1) * (t + 2) / 2 % 64
  }

  lemma WalkStep(t: nat, x: Coord, y: Coord, n: nat)
    requires Walk(t) == (x, y) && Offset(x, y) == n && n == (t + 1) * (t + 2) / 2 % 64
    ensures WalkAgrees(t) && Walk(t + 1) == (y, Mod5(2 * x + 3 * y))
  {}

  lemma Walk0(z: nat)
    requires z == 0
    ensures Walk(z) == (1, 0) ==> Walk(z + 6) == (3, 0) && forall t | z <= t < z + 6 :: WalkAgrees(t)
  {
    hide WalkAgrees, Walk;
    if Walk(z) == (1, 0) {
      WalkStep(z, 1, 0, 1);
      WalkStep(z + 1, 0, 2, 3);
      WalkStep(z + 2, 2, 1, 6);
      WalkStep(z + 3, 1, 2, 10);
      WalkStep(z + 4, 2, 3, 15);
      WalkStep(z + 5, 3, 3, 21);
    }
  }

  lemma Walk6(z: nat)
    requires z == 6
    ensures Walk(z) == (3, 0) ==> Walk(z + 6) == (4, 0) && forall t | z <= t < z + 6 :: WalkAgrees(t)
  {
    hide WalkAgrees, Walk;
    if Walk(z) == (3, 0) {
      WalkStep(z, 3, 0, 28);
      WalkStep(z + 1, 0, 1, 36);
      WalkStep(z + 2, 1, 3, 45);
      WalkStep(z + 3, 3, 1, 55);
      WalkStep(z + 4, 1, 4, 2);
      WalkStep(z + 5, 4, 4, 14);
    }
  }

  lemma Walk12(z: nat)
    requires z == 12
    ensures Walk(z) == (4, 0) ==> Walk(z + 6) == (2, 0) && forall t | z <= t < z + 6 :: WalkAgrees(t)
  {
    hide WalkAgrees, Walk;
    if Walk(z) == (4, 0) {
      WalkStep(z, 4, 0, 27);
      WalkStep(z + 1, 0, 3, 41);
      WalkStep(z + 2, 3, 4, 56);
      WalkStep(z + 3, 4, 3, 8);
      WalkStep(z + 4, 3, 2, 25);
      WalkStep(z + 5, 2, 2, 43);
    }
  }

  lemma Walk18(z: nat)
    requires z == 18
    ensures Walk(z) == (2, 0) ==> Walk(z + 6) == (1, 0) && forall t | z <= t < z + 6 :: WalkAgrees(t)
  {
    hide WalkAgrees, Walk;
    if Walk(z) == (2, 0) {
      WalkStep(z, 2, 0, 62);
      WalkStep(z + 1, 0, 4, 18);
      WalkStep(z + 2, 4, 2, 39);
      WalkStep(z + 3, 2, 4, 61);
      WalkStep(z + 4, 4, 1, 20);
      WalkStep(z + 5, 1, 1, 44);
    }
  }

  lemma WholeWalk(z: nat)
    requires z == 0
    ensures forall t | 0 <= t < 24 :: WalkAgrees(t)
  {
    hide WalkAgrees;
    assert Walk(z) == (1, 0);
    hide Walk;
    Walk0(z);
    Walk6(z + 6);
    Walk12(z + 12);
    Walk18(z + 18);
  }

  /** Table 2 is the table Algorithm 2 computes. */
  lemma {:induction false} OffsetsFromWalk(t: nat)
    requires t < 24
    ensures Offset(Walk(t).0, Walk(t).1) == (t + 1) * (t + 2) / 2 % 64
  {
    WholeWalk(0);
    assert WalkAgrees(t);
  }

  function Rho(a: State): (r: State) {
    FromBits((x: Coord, y: Coord, z: Depth) => Bit(a, x, y, (z - Offset(x, y)) % 64))
  }

  function Pi(a: State): (r: State) {
    FromBits((x: Coord, y: Coord, z: Depth) => Bit(a, Mod5(x + 3 * y), x, z))
  }

  function Chi(a: State): (r: State) {
    FromBits((x: Coord, y: Coord, z: Depth) =>
      X(Bit(a, x, y, z), X(Bit(a, Mod5(x + 1), y, z), true) && Bit(a, Mod5(x + 2), y, z)))
  }

  function Iota(a: State, rc: u64): (r: State) {
    FromBits((x: Coord, y: Coord, z: Depth) => if x == 0 && y == 0 then X(Bit(a, x, y, z), rc[z]) else Bit(a, x, y, z))
  }

  // ---- What the step mappings do, by the count of set bits and by where a bit goes ----

  function One(p: bool): (n: nat) { if p then 1 else 0 }

  /** The set bits of a column of five. */
  function Column(a: State, x: Coord, z: Depth): (n: nat) {
    One(Bit(a, x, 0, z)) + One(Bit(a, x, 1, z)) + One(Bit(a, x, 2, z)) + One(Bit(a, x, 3, z)) + One(Bit(a, x, 4, z))
  }

  lemma ParityIsOdd(a: State, x: Coord, z: Depth)
    ensures C(a, x, z) <==> Column(a, x, z) % 2 == 1
  {
    hide Bit;
  }

  lemma ThetaBit(a: State, x: Coord, y: Coord, z: Depth)
    ensures Bit(Theta(a), x, y, z) == X(Bit(a, x, y, z), X(C(a, Mod5(x - 1), z), C(a, Mod5(x + 1), (z - 1) % 64)))
  {
    hide C, Bit;
  }

  lemma OddSum(p: bool, u: nat, v: nat)
    ensures X(p, X(u % 2 == 1, v % 2 == 1)) <==> (One(p) + u + v) % 2 == 1
  {}

  lemma Neighbours(x: Coord)
    ensures Mod5(x - 1) == (x + 4) % 5 && Mod5(x + 1) == (x + 1) % 5 && Mod5(x + 2) == (x + 2) % 5
  {}

  /** Theta adds the columns to the left, and to the right one bit below, to every bit. */
  lemma ThetaAdds(a: State, x: Coord, y: Coord, z: Depth, left: Coord, right: Coord, below: Depth)
    requires left == (x + 4) % 5 && right == (x + 1) % 5 && below == (z + 63) % 64
    ensures Bit(Theta(a), x, y, z) <==> (One(Bit(a, x, y, z)) + Column(a, left, z) + Column(a, right, below)) % 2 == 1
  {
    Neighbours(x);
    assert below == (z - 1) % 64;
    hide *;
    ThetaBit(a, x, y, z);
    ParityIsOdd(a, left, z);
    ParityIsOdd(a, right, below);
    OddSum(Bit(a, x, y, z), Column(a, left, z), Column(a, right, below));
  }

  /** Rho moves the bits of a lane up, around its end. */
  lemma RhoMoves(a: State, x: Coord, y: Coord, z: Depth)
    ensures Bit(Rho(a), x, y, (z + Offset(x, y)) % 64) == Bit(a, x, y, z)
  {
    var n := Offset(x, y);
    hide Offset, Bit;
    assert ((z + n) % 64 - n) % 64 == z;
  }

  /** Pi moves the lane at (x, y) to (y, 2x + 3y). */
  lemma PiMoves(a: State, x: Coord, y: Coord, z: Depth)
    ensures Bit(Pi(a), y, (2 * x + 3 * y) % 5, z) == Bit(a, x, y, z)
  {
    hide Bit;
    assert Mod5(y + 3 * ((2 * x + 3 * y) % 5)) == x;
  }

  lemma ChiBit(a: State, x: Coord, y: Coord, z: Depth)
    ensures Bit(Chi(a), x, y, z) ==
      X(Bit(a, x, y, z), X(Bit(a, Mod5(x + 1), y, z), true) && Bit(a, Mod5(x + 2), y, z))
  {
    hide Bit;
  }

  /** Chi adds to each bit the next but one of its row where the next is not set. */
  lemma ChiAdds(a: State, x: Coord, y: Coord, z: Depth, next: Coord, after: Coord)
    requires next == (x + 1) % 5 && after == (x + 2) % 5
    ensures One(Bit(Chi(a), x, y, z)) ==
      (One(Bit(a, x, y, z)) + (1 - One(Bit(a, next, y, z))) * One(Bit(a, after, y, z))) % 2
  {
    Neighbours(x);
    ChiBit(a, x, y, z);
    hide Bit, Chi, Mod5;
  }

  /** Iota changes the first lane only, by the constant. */
  lemma IotaAdds(a: State, rc: u64)
    ensures Iota(a, rc) == a[0 := Xor(a[0], rc)]
  {
    forall i | 0 <= i < 25 ensures Iota(a, rc)[i] == a[0 := Xor(a[0], rc)][i] {
      forall z: nat | z < 64 ensures Iota(a, rc)[i][z] == a[0 := Xor(a[0], rc)][i][z] {
        assert Bit(Iota(a, rc), i % 5, i / 5, z) == if i == 0 then X(Bit(a, 0, 0, z), rc[z]) else Bit(a, i % 5, i / 5, z);
      }
    }
  }

  /** The shift register of Algorithm 5 as its eight cells. */
  datatype Lfsr = Lfsr(r0: bool, r1: bool, r2: bool, r3: bool, r4: bool, r5: bool, r6: bool, r7: bool) {
    function Next(): (r: Lfsr) { Lfsr(r7, r0, r1, r2, X(r3, r7), X(r4, r7), X(r5, r7), r6) }
  }

  function Register(t: nat): (r: Lfsr) {
    if t == 0 then Lfsr(true, false, false, false, false, false, false, false) else Register(t - 1).Next()
  }

  /** Bits with runs of zeros between them. */
  datatype Sparse = Last(b: bool) | Then(b: bool, gap: nat, rest: Sparse) {
    function Bits(): (r: seq<bool>) {
      match this
      case Last(b) => [b]
      case Then(b, gap, rest) => [b] + (Zeros(gap) + rest.Bits())
    }

    function Size(): (n: nat)
      ensures n == |Bits()|
    {
      match this
      case Last(b) => 1
      case Then(b, gap, rest) => 1 + gap + rest.Size()
    }
  }

  /** The given seven bits at the positions `2^j - 1`. */
  function SparseBits(b0: bool, b1: bool, b2: bool, b3: bool, b4: bool, b5: bool, b6: bool): (r: Sparse) {
    Then(b0, 0, Then(b1, 1, Then(b2, 3, Then(b3, 7, Then(b4, 15, Then(b5, 31, Last(b6)))))))
  }

  /** A word with the given seven bits at the positions `2^j - 1` and zeros elsewhere. */
  function SparseWord(b0: bool, b1: bool, b2: bool, b3: bool, b4: bool, b5: bool, b6: bool): (r: u64) {
    var s := SparseBits(b0, b1, b2, b3, b4, b5, b6);
    assert s.rest.rest.rest.rest.rest.Size() == 33 && s.rest.rest.rest.Size() == 57;
    s.Bits()
  }

  /** The round constant of round `i`, Algorithm 6 (`rc(t)` is the first cell of the register). */
  function RoundConstant(i: nat): (r: u64) {
    SparseWord(Register(7 * i).r0, Register(7 * i + 1).r0, Register(7 * i + 2).r0, Register(7 * i + 3).r0,
               Register(7 * i + 4).r0, Register(7 * i + 5).r0, Register(7 * i + 6).r0)
  }

  function Rnd(a: State, rc: u64): (r: State) { Iota(Chi(Pi(Rho(Theta(a)))), rc) }

  // ---- Sections 3.3 and 3.4 ----

  /** The first `n` rounds. */
  function Rounds(a: State, n: nat): (r: State) {
    if n == 0 then a else Rnd(Rounds(a, n - 1), RoundConstant(n - 1))
  }

  /** The width 1600 has lanes of 64 bits, so 24 rounds. */
  function KeccakF(a: State): (r: State) { Rounds(a, 24) }

  /** The number of rounds is 12 + 2 l, where the lanes have 2^l bits. */
  lemma RoundsOfWidth(a: State, l: nat)
    requires Pow2(l) == |Lane(a, 0, 0)|
    ensures KeccakF(a) == Rounds(a, 12 + 2 * l)
  {
    hide Rounds;
    assert Pow2(6) == 64;
    if l < 6 {
      Pow2Grows(l, 6);
    } else if l > 6 {
      Pow2Grows(6, l);
    }
  }

  lemma {:induction false} Pow2Grows(k: nat, l: nat)
    requires k < l
    ensures Pow2(k) < Pow2(l)
    decreases l
  {
    Pow2Positive(k);
    if k + 1 < l {
      Pow2Grows(k, l - 1);
    }
  }

  lemma {:induction false} Pow2Positive(k: nat)
    ensures Pow2(k) > 0
  {
    if k > 0 {
      Pow2Positive(k - 1);
    }
  }
}
