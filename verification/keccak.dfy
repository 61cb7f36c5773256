/** The unrolled, in-place permutation of the hash engine, proved against FIPS 202. */
module Keccak {
  import opened MachineWords
  import opened Fips202
  import opened RoundConstants

  // ---- One round on whole lanes ----

  /** The three-operand step the code writes as `b0 ^ (~b1 & b2)`. */
  function Mix(b0: u64, b1: u64, b2: u64): (r: u64) { Xor(b0, And(Not(b1), b2)) }

  function Rot(a: u64, n: nat): (r: u64)
    requires n < 64
  {
    if n == 0 then a else Rol64(a, n)
  }

  function ColumnParity(a: State, x: Coord): (r: u64) {
    Xor(Xor(Xor(Xor(Lane(a, x, 0), Lane(a, x, 1)), Lane(a, x, 2)), Lane(a, x, 3)), Lane(a, x, 4))
  }

  function ThetaEffect(a: State, x: Coord): (r: u64) {
    Xor(ColumnParity(a, Mod5(x + 4)), Rol64(ColumnParity(a, Mod5(x + 1)), 1))
  }

  /** The lane that reaches position (x, y) after theta, rho and pi. */
  function FeedWord(a: State, x: Coord, y: Coord): (r: u64) {
    var u := Mod5(x + 3 * y);
    Rot(Xor(Lane(a, u, x), ThetaEffect(a, u)), Offset(u, x))
  }

  function RndLane(a: State, rc: u64, x: Coord, y: Coord): (r: u64) {
    var w := Mix(FeedWord(a, x, y), FeedWord(a, Mod5(x + 1), y), FeedWord(a, Mod5(x + 2), y));
    if x == 0 && y == 0 then Xor(w, rc) else w
  }

  lemma ColumnParityBit(a: State, x: Coord, z: Depth)
    ensures ColumnParity(a, x)[z] == C(a, x, z)
  {}

  lemma ThetaEffectBit(a: State, x: Coord, z: Depth)
    ensures ThetaEffect(a, x)[z] == D(a, x, z)
  {
    hide ColumnParity, C, Rol64;
    ColumnParityBit(a, Mod5(x + 4), z);
    RolBit(ColumnParity(a, Mod5(x + 1)), 1, z);
    ColumnParityBit(a, Mod5(x + 1), (z - 1) % 64);
    assert Mod5(x - 1) == Mod5(x + 4);
  }

  lemma ThetaLane(a: State, x: Coord, y: Coord)
    ensures Lane(Theta(a), x, y) == Xor(Lane(a, x, y), ThetaEffect(a, x))
  {
    forall z: Depth ensures Bit(Theta(a), x, y, z) == Xor(Lane(a, x, y), ThetaEffect(a, x))[z] {
      hide D, ThetaEffect;
      ThetaEffectBit(a, x, z);
    }
  }

  lemma RhoLane(a: State, x: Coord, y: Coord)
    ensures Lane(Rho(a), x, y) == Rot(Lane(a, x, y), Offset(x, y))
  {
    hide Offset, Rol64, FromBits, FromLanes;
    forall z: Depth ensures Bit(Rho(a), x, y, z) == Rot(Lane(a, x, y), Offset(x, y))[z] {
      if Offset(x, y) != 0 {
        RolBit(Lane(a, x, y), Offset(x, y), z);
      }
    }
  }

  lemma PiLane(a: State, x: Coord, y: Coord)
    ensures Lane(Pi(a), x, y) == Lane(a, Mod5(x + 3 * y), x)
  {
    hide Mod5, FromBits;
    var p, q := Lane(Pi(a), x, y), Lane(a, Mod5(x + 3 * y), x);
    forall z: Depth ensures p[z] == q[z] {
      assert p[z] == Bit(Pi(a), x, y, z);
    }
    assert p == q;
  }

  lemma ChiLane(a: State, x: Coord, y: Coord)
    ensures Lane(Chi(a), x, y) == Mix(Lane(a, x, y), Lane(a, Mod5(x + 1), y), Lane(a, Mod5(x + 2), y))
  {
    hide Mod5, FromBits, Lane;
    var p, q := Lane(Chi(a), x, y), Mix(Lane(a, x, y), Lane(a, Mod5(x + 1), y), Lane(a, Mod5(x + 2), y));
    forall z: Depth ensures p[z] == q[z] {
      assert p[z] == Bit(Chi(a), x, y, z);
    }
    assert p == q;
  }

  lemma IotaLane(a: State, rc: u64, x: Coord, y: Coord)
    ensures Lane(Iota(a, rc), x, y) == if x == 0 && y == 0 then Xor(Lane(a, x, y), rc) else Lane(a, x, y)
  {
    forall z: Depth
      ensures Bit(Iota(a, rc), x, y, z) == (if x == 0 && y == 0 then Xor(Lane(a, x, y), rc) else Lane(a, x, y))[z]
    {}
  }

  lemma FeedWordLane(a: State, x: Coord, y: Coord)
    ensures Lane(Pi(Rho(Theta(a))), x, y) == FeedWord(a, x, y)
  {
    hide Theta, Rho, Pi, Xor, Rot, ThetaEffect, Offset, Mod5, Lane;
    var u := Mod5(x + 3 * y);
    PiLane(Rho(Theta(a)), x, y);
    RhoLane(Theta(a), u, x);
    ThetaLane(a, u, x);
  }

  /** A round of the standard, lane by lane, in the operations of the code. */
  lemma RndIsRndLane(a: State, rc: u64, x: Coord, y: Coord)
    ensures Lane(Rnd(a, rc), x, y) == RndLane(a, rc, x, y)
  {
    hide Theta, Rho, Pi, Chi, Iota, Xor, Mix, FeedWord, Mod5, Lane;
    var p := Pi(Rho(Theta(a)));
    IotaLane(Chi(p), rc, x, y);
    ChiLane(p, x, y);
    FeedWordLane(a, x, y);
    FeedWordLane(a, Mod5(x + 1), y);
    FeedWordLane(a, Mod5(x + 2), y);
  }

  // ---- Where the lanes are between the unrolled rounds ----

  type Step = k: nat | k <= 4

  /** The row of the array that holds lane (x, y) after `k` in-place rounds; its column stays `x`. */
  function Row(k: Step, x: Coord, y: Coord): (r: Coord) {
    match k
    case 1 => Mod5(x + 2 * y)
    case 2 => Mod5(3 * x + 4 * y)
    case 3 => Mod5(2 * x + 3 * y)
    case _ => y
  }

  /** Each round overwrites its own sources, so the map is iterated; the fourth turn closes it. */
  lemma RowIterates(k: Step, x: Coord, y: Coord)
    requires k < 4
    ensures Row(k + 1, x, y) == Row(k, x, Mod5(x + 2 * y))
  {
    hide Mod5;
    var i: int, j: int, j': int := x, y, Mod5(x + 2 * y);
    Mod5IsRemainder(i + 2 * j);
    Mod5IsRemainder(j);
    var q := (i + 2 * j) / 5;
    assert i + 2 * j == 5 * q + j';
    match k
    case 0 =>
    case 1 => SameMod5(3 * i + 4 * j, i + 2 * j', 2 * q);
    case 2 => SameMod5(2 * i + 3 * j, 3 * i + 4 * j', 4 * q - i - j);
    case _ => SameMod5(j, 2 * i + 3 * j', 3 * q - i - j);
  }

  lemma SameMod5(m: int, n: int, q: int)
    requires 0 <= m < 30 && 0 <= n < 30 && m == n + 5 * q
    ensures Mod5(m) == Mod5(n)
  {
    Mod5IsRemainder(m);
    Mod5IsRemainder(n);
  }

  /** The state array stored in `s` after `k` in-place rounds. */
  function View(s: State, k: Step): (r: State) {
    FromLanes((x: Coord, y: Coord) => Lane(s, x, Row(k, x, y)))
  }

  lemma ViewHome(s: State)
    ensures View(s, 0) == s && View(s, 4) == s
  {
    SameLanes(View(s, 0), s);
    SameLanes(View(s, 4), s);
  }

  lemma Mod5Differ(c: nat, m: nat, y: Coord, y': Coord)
    requires c <= 12 && 1 <= m <= 4 && y != y'
    ensures Mod5(c + m * y) != Mod5(c + m * y')
  {
    if m == 1 {} else if m == 2 {} else if m == 3 {} else {}
  }

  /** The five planes of a round are stored in disjoint sets of array cells. */
  lemma RowDiffer(k: Step, x: Coord, y: Coord, y': Coord)
    requires y != y'
    ensures Row(k, x, y) != Row(k, x, y')
  {
    hide Mod5;
    match k
    case 1 => Mod5Differ(x, 2, y, y');
    case 2 => Mod5Differ(3 * x, 4, y, y');
    case 3 => Mod5Differ(2 * x, 3, y, y');
    case _ =>
  }

  lemma Column(s: State, k: Step, x: Coord, r1: Coord, r2: Coord, r3: Coord, r4: Coord)
    requires r1 == Row(k, x, 1) && r2 == Row(k, x, 2) && r3 == Row(k, x, 3) && r4 == Row(k, x, 4)
    ensures ColumnParity(View(s, k), x) ==
      Xor(Xor(Xor(Xor(s[5 * Row(k, x, 0) + x], s[5 * r1 + x]), s[5 * r2 + x]), s[5 * r3 + x]), s[5 * r4 + x])
  {
    hide Xor;
  }

  lemma Columns(s: State, k: Step)
    ensures var a := View(s, k);
      && ThetaEffect(a, 0) == Xor(ColumnParity(a, 4), Rol64(ColumnParity(a, 1), 1))
      && ThetaEffect(a, 1) == Xor(ColumnParity(a, 0), Rol64(ColumnParity(a, 2), 1))
      && ThetaEffect(a, 2) == Xor(ColumnParity(a, 1), Rol64(ColumnParity(a, 3), 1))
      && ThetaEffect(a, 3) == Xor(ColumnParity(a, 2), Rol64(ColumnParity(a, 4), 1))
      && ThetaEffect(a, 4) == Xor(ColumnParity(a, 3), Rol64(ColumnParity(a, 0), 1))
  {
    hide Xor, Rol64, ColumnParity;
  }

  lemma Source(s: State, k: Step, x: Coord, y: Coord, u: Coord, r: Coord, n: nat)
    requires u == Mod5(x + 3 * y) && r == Row(k, u, x) && n == Offset(u, x)
    ensures FeedWord(View(s, k), x, y) == Rot(Xor(s[5 * r + u], ThetaEffect(View(s, k), u)), n)
  {
    hide ThetaEffect, Rol64, Xor, FromLanes, Offset;
    assert Lane(View(s, k), u, x) == Lane(s, u, r);
  }

  /** The array cells and rotations from which plane `y` of the round is computed. */
  lemma Sources(s: State, k: Step, y: Coord, i0: nat, n0: nat, i1: nat, n1: nat, i2: nat, n2: nat,
                i3: nat, n3: nat, i4: nat, n4: nat)
    requires i0 == 5 * Row(k, Mod5(3 * y), 0) + Mod5(3 * y) && n0 == Offset(Mod5(3 * y), 0)
    requires i1 == 5 * Row(k, Mod5(1 + 3 * y), 1) + Mod5(1 + 3 * y) && n1 == Offset(Mod5(1 + 3 * y), 1)
    requires i2 == 5 * Row(k, Mod5(2 + 3 * y), 2) + Mod5(2 + 3 * y) && n2 == Offset(Mod5(2 + 3 * y), 2)
    requires i3 == 5 * Row(k, Mod5(3 + 3 * y), 3) + Mod5(3 + 3 * y) && n3 == Offset(Mod5(3 + 3 * y), 3)
    requires i4 == 5 * Row(k, Mod5(4 + 3 * y), 4) + Mod5(4 + 3 * y) && n4 == Offset(Mod5(4 + 3 * y), 4)
    ensures var a := View(s, k);
      && FeedWord(a, 0, y) == Rot(Xor(s[i0], ThetaEffect(a, Mod5(3 * y))), n0)
      && FeedWord(a, 1, y) == Rot(Xor(s[i1], ThetaEffect(a, Mod5(1 + 3 * y))), n1)
      && FeedWord(a, 2, y) == Rot(Xor(s[i2], ThetaEffect(a, Mod5(2 + 3 * y))), n2)
      && FeedWord(a, 3, y) == Rot(Xor(s[i3], ThetaEffect(a, Mod5(3 + 3 * y))), n3)
      && FeedWord(a, 4, y) == Rot(Xor(s[i4], ThetaEffect(a, Mod5(4 + 3 * y))), n4)
  {
    hide ThetaEffect, Rol64, Xor, FromLanes, Offset, Mod5, Row;
    Source(s, k, 0, y, Mod5(3 * y), Row(k, Mod5(3 * y), 0), n0);
    Source(s, k, 1, y, Mod5(1 + 3 * y), Row(k, Mod5(1 + 3 * y), 1), n1);
    Source(s, k, 2, y, Mod5(2 + 3 * y), Row(k, Mod5(2 + 3 * y), 2), n2);
    Source(s, k, 3, y, Mod5(3 + 3 * y), Row(k, Mod5(3 + 3 * y), 3), n3);
    Source(s, k, 4, y, Mod5(4 + 3 * y), Row(k, Mod5(4 + 3 * y), 4), n4);
  }

  /** The first `n` planes of the round applied to `a` are stored in `s`. */
  ghost predicate RowsDone(s: State, k: Step, a: State, rc: u64, n: nat) {
    forall x: Coord, y: Coord | y < n :: Lane(s, x, Row(k, x, y)) == RndLane(a, rc, x, y)
  }

  lemma NoRows(s: State, k: Step, a: State, rc: u64)
    ensures RowsDone(s, k, a, rc, 0)
  {}

  lemma RowStored(s: State, k: Step, a: State, rc: u64, y: Coord, t0: nat, t1: nat, t2: nat, t3: nat, t4: nat, s': State)
    requires RowsDone(s, k, a, rc, y)
    requires t0 == 5 * Row(k, 0, y) && t1 == 5 * Row(k, 1, y) + 1 && t2 == 5 * Row(k, 2, y) + 2
    requires t3 == 5 * Row(k, 3, y) + 3 && t4 == 5 * Row(k, 4, y) + 4
    requires s' == s[t0 := RndLane(a, rc, 0, y)][t1 := RndLane(a, rc, 1, y)][t2 := RndLane(a, rc, 2, y)]
                    [t3 := RndLane(a, rc, 3, y)][t4 := RndLane(a, rc, 4, y)]
    ensures RowsDone(s', k, a, rc, y + 1)
  {
    hide Row, RndLane;
    forall x: Coord, v: Coord | v < y + 1 ensures Lane(s', x, Row(k, x, v)) == RndLane(a, rc, x, v) {
      if v != y {
        RowDiffer(k, x, v, y);
      }
      if x == 0 {} else if x == 1 {} else if x == 2 {} else if x == 3 {} else {}
    }
  }

  lemma RoundDone(s: State, k: Step, a: State, rc: u64)
    requires RowsDone(s, k, a, rc, 5)
    ensures View(s, k) == Rnd(a, rc)
  {
    hide Rnd, RndLane, FromLanes;
    var p, q := View(s, k), Rnd(a, rc);
    forall x: Coord, y: Coord ensures Lane(p, x, y) == Lane(q, x, y) {
      RndIsRndLane(a, rc, x, y);
    }
    SameLanes(p, q);
  }

  ghost predicate PlaneFeeds(b0: u64, b1: u64, b2: u64, b3: u64, b4: u64, a: State, y: Coord) {
    b0 == FeedWord(a, 0, y) && b1 == FeedWord(a, 1, y) && b2 == FeedWord(a, 2, y) && b3 == FeedWord(a, 3, y) && b4 == FeedWord(a, 4, y)
  }

  // ---- The code ----

  /** The group of statements that computes B0 to B4 and overwrites the five cells they came from. */
  method Plane(s: array<u64>, b0: u64, b1: u64, b2: u64, b3: u64, b4: u64, t0: nat, t1: nat, t2: nat, t3: nat, t4: nat,
               ghost k: Step, ghost a: State, ghost rc: u64, ghost y: Coord)
    requires s.Length == 25 && y > 0
    requires PlaneFeeds(b0, b1, b2, b3, b4, a, y)
    requires t0 == 5 * Row(k, 0, y) && t1 == 5 * Row(k, 1, y) + 1 && t2 == 5 * Row(k, 2, y) + 2
    requires t3 == 5 * Row(k, 3, y) + 3 && t4 == 5 * Row(k, 4, y) + 4
    requires RowsDone(s[..], k, a, rc, y)
    modifies s
    ensures s[..] == old(s[..])[t0 := Mix(b0, b1, b2)][t1 := Mix(b1, b2, b3)][t2 := Mix(b2, b3, b4)]
                               [t3 := Mix(b3, b4, b0)][t4 := Mix(b4, b0, b1)]
    ensures RowsDone(s[..], k, a, rc, y + 1)
  {
    hide Mix, FeedWord, Row, RowsDone;
    ghost var was: State := s[..];
    s[t0] := Mix(b0, b1, b2);
    s[t1] := Mix(b1, b2, b3);
    s[t2] := Mix(b2, b3, b4);
    s[t3] := Mix(b3, b4, b0);
    s[t4] := Mix(b4, b0, b1);
    RowStored(was, k, a, rc, y, t0, t1, t2, t3, t4, s[..]);
  }

  /** The same for the first plane, whose first cell also takes the round constant. */
  method FirstPlane(s: array<u64>, b0: u64, b1: u64, b2: u64, b3: u64, b4: u64, t0: nat, t1: nat, t2: nat, t3: nat, t4: nat,
                    rc: u64, ghost k: Step, ghost a: State)
    requires s.Length == 25
    requires PlaneFeeds(b0, b1, b2, b3, b4, a, 0)
    requires t0 == 5 * Row(k, 0, 0) && t1 == 5 * Row(k, 1, 0) + 1 && t2 == 5 * Row(k, 2, 0) + 2
    requires t3 == 5 * Row(k, 3, 0) + 3 && t4 == 5 * Row(k, 4, 0) + 4
    modifies s
    ensures s[..] == old(s[..])[t0 := Xor(Mix(b0, b1, b2), rc)][t1 := Mix(b1, b2, b3)][t2 := Mix(b2, b3, b4)]
                               [t3 := Mix(b3, b4, b0)][t4 := Mix(b4, b0, b1)]
    ensures RowsDone(s[..], k, a, rc, 1)
  {
    hide Mix, FeedWord, Row, RowsDone, Xor;
    ghost var was: State := s[..];
    s[t0] := Mix(b0, b1, b2);
    s[t0] := Xor(s[t0], rc);
    s[t1] := Mix(b1, b2, b3);
    s[t2] := Mix(b2, b3, b4);
    s[t3] := Mix(b3, b4, b0);
    s[t4] := Mix(b4, b0, b1);
    NoRows(was, k, a, rc);
    RowStored(was, k, a, rc, 0, t0, t1, t2, t3, t4, s[..]);
  }

  /** The first of the four unrolled rounds: lanes are found where no in-place round put them
      and left where one of them leaves them. */
  method UnrolledRound0(s: array<u64>, rc: u64)
    requires s.Length == 25
    modifies s
    ensures View(s[..], 1) == Rnd(View(old(s[..]), 0), rc)
  {
    hide Xor, Mix, Rol64, ColumnParity, ThetaEffect, FeedWord, FromLanes, View, RowsDone, Rnd;
    ghost var s0, a := s[..], View(s[..], 0);
    Column(s0, 0, 0, 1, 2, 3, 4);
    Column(s0, 0, 1, 1, 2, 3, 4);
    Column(s0, 0, 2, 1, 2, 3, 4);
    Column(s0, 0, 3, 1, 2, 3, 4);
    Column(s0, 0, 4, 1, 2, 3, 4);
    Columns(s0, 0);
    var c0 := Xor(Xor(Xor(Xor(s[0], s[5]), s[10]), s[15]), s[20]);
    var c1 := Xor(Xor(Xor(Xor(s[1], s[6]), s[11]), s[16]), s[21]);
    var c2 := Xor(Xor(Xor(Xor(s[2], s[7]), s[12]), s[17]), s[22]);
    var c3 := Xor(Xor(Xor(Xor(s[3], s[8]), s[13]), s[18]), s[23]);
    var c4 := Xor(Xor(Xor(Xor(s[4], s[9]), s[14]), s[19]), s[24]);
    var d0 := Xor(c4, Rol64(c1, 1));
    var d1 := Xor(c0, Rol64(c2, 1));
    var d2 := Xor(c1, Rol64(c3, 1));
    var d3 := Xor(c2, Rol64(c4, 1));
    var d4 := Xor(c3, Rol64(c0, 1));
    Sources(s0, 0, 0, 0, 0, 6, 44, 12, 43, 18, 21, 24, 14);
    FirstPlane(s, Xor(s[0], d0), Rol64(Xor(s[6], d1), 44), Rol64(Xor(s[12], d2), 43), Rol64(Xor(s[18], d3), 21), Rol64(Xor(s[24], d4), 14),
          0, 6, 12, 18, 24, rc, 1, a);
    Sources(s0, 0, 1, 3, 28, 9, 20, 10, 3, 16, 45, 22, 61);
    Plane(s, Rol64(Xor(s[3], d3), 28), Rol64(Xor(s[9], d4), 20), Rol64(Xor(s[10], d0), 3), Rol64(Xor(s[16], d1), 45), Rol64(Xor(s[22], d2), 61),
          10, 16, 22, 3, 9, 1, a, rc, 1);
    Sources(s0, 0, 2, 1, 1, 7, 6, 13, 25, 19, 8, 20, 18);
    Plane(s, Rol64(Xor(s[1], d1), 1), Rol64(Xor(s[7], d2), 6), Rol64(Xor(s[13], d3), 25), Rol64(Xor(s[19], d4), 8), Rol64(Xor(s[20], d0), 18),
          20, 1, 7, 13, 19, 1, a, rc, 2);
    Sources(s0, 0, 3, 4, 27, 5, 36, 11, 10, 17, 15, 23, 56);
    Plane(s, Rol64(Xor(s[4], d4), 27), Rol64(Xor(s[5], d0), 36), Rol64(Xor(s[11], d1), 10), Rol64(Xor(s[17], d2), 15), Rol64(Xor(s[23], d3), 56),
          5, 11, 17, 23, 4, 1, a, rc, 3);
    Sources(s0, 0, 4, 2, 62, 8, 55, 14, 39, 15, 41, 21, 2);
    Plane(s, Rol64(Xor(s[2], d2), 62), Rol64(Xor(s[8], d3), 55), Rol64(Xor(s[14], d4), 39), Rol64(Xor(s[15], d0), 41), Rol64(Xor(s[21], d1), 2),
          15, 21, 2, 8, 14, 1, a, rc, 4);
    RoundDone(s[..], 1, a, rc);
  }

  /** The second of the four unrolled rounds: lanes are found where one in-place round put them
      and left where two of them leaves them. */
  method UnrolledRound1(s: array<u64>, rc: u64)
    requires s.Length == 25
    modifies s
    ensures View(s[..], 2) == Rnd(View(old(s[..]), 1), rc)
  {
    hide Xor, Mix, Rol64, ColumnParity, ThetaEffect, FeedWord, FromLanes, View, RowsDone, Rnd;
    ghost var s0, a := s[..], View(s[..], 1);
    Column(s0, 1, 0, 2, 4, 1, 3);
    Column(s0, 1, 1, 3, 0, 2, 4);
    Column(s0, 1, 2, 4, 1, 3, 0);
    Column(s0, 1, 3, 0, 2, 4, 1);
    Column(s0, 1, 4, 1, 3, 0, 2);
    Columns(s0, 1);
    var c0 := Xor(Xor(Xor(Xor(s[0], s[10]), s[20]), s[5]), s[15]);
    var c1 := Xor(Xor(Xor(Xor(s[6], s[16]), s[1]), s[11]), s[21]);
    var c2 := Xor(Xor(Xor(Xor(s[12], s[22]), s[7]), s[17]), s[2]);
    var c3 := Xor(Xor(Xor(Xor(s[18], s[3]), s[13]), s[23]), s[8]);
    var c4 := Xor(Xor(Xor(Xor(s[24], s[9]), s[19]), s[4]), s[14]);
    var d0 := Xor(c4, Rol64(c1, 1));
    var d1 := Xor(c0, Rol64(c2, 1));
    var d2 := Xor(c1, Rol64(c3, 1));
    var d3 := Xor(c2, Rol64(c4, 1));
    var d4 := Xor(c3, Rol64(c0, 1));
    Sources(s0, 1, 0, 0, 0, 16, 44, 7, 43, 23, 21, 14, 14);
    FirstPlane(s, Xor(s[0], d0), Rol64(Xor(s[16], d1), 44), Rol64(Xor(s[7], d2), 43), Rol64(Xor(s[23], d3), 21), Rol64(Xor(s[14], d4), 14),
          0, 16, 7, 23, 14, rc, 2, a);
    Sources(s0, 1, 1, 18, 28, 9, 20, 20, 3, 11, 45, 2, 61);
    Plane(s, Rol64(Xor(s[18], d3), 28), Rol64(Xor(s[9], d4), 20), Rol64(Xor(s[20], d0), 3), Rol64(Xor(s[11], d1), 45), Rol64(Xor(s[2], d2), 61),
          20, 11, 2, 18, 9, 2, a, rc, 1);
    Sources(s0, 1, 2, 6, 1, 22, 6, 13, 25, 4, 8, 15, 18);
    Plane(s, Rol64(Xor(s[6], d1), 1), Rol64(Xor(s[22], d2), 6), Rol64(Xor(s[13], d3), 25), Rol64(Xor(s[4], d4), 8), Rol64(Xor(s[15], d0), 18),
          15, 6, 22, 13, 4, 2, a, rc, 2);
    Sources(s0, 1, 3, 24, 27, 10, 36, 1, 10, 17, 15, 8, 56);
    Plane(s, Rol64(Xor(s[24], d4), 27), Rol64(Xor(s[10], d0), 36), Rol64(Xor(s[1], d1), 10), Rol64(Xor(s[17], d2), 15), Rol64(Xor(s[8], d3), 56),
          10, 1, 17, 8, 24, 2, a, rc, 3);
    Sources(s0, 1, 4, 12, 62, 3, 55, 19, 39, 5, 41, 21, 2);
    Plane(s, Rol64(Xor(s[12], d2), 62), Rol64(Xor(s[3], d3), 55), Rol64(Xor(s[19], d4), 39), Rol64(Xor(s[5], d0), 41), Rol64(Xor(s[21], d1), 2),
          5, 21, 12, 3, 19, 2, a, rc, 4);
    RoundDone(s[..], 2, a, rc);
  }

  /** The third of the four unrolled rounds: lanes are found where two in-place rounds put them
      and left where three of them leaves them. */
  method UnrolledRound2(s: array<u64>, rc: u64)
    requires s.Length == 25
    modifies s
    ensures View(s[..], 3) == Rnd(View(old(s[..]), 2), rc)
  {
    hide Xor, Mix, Rol64, ColumnParity, ThetaEffect, FeedWord, FromLanes, View, RowsDone, Rnd;
    ghost var s0, a := s[..], View(s[..], 2);
    Column(s0, 2, 0, 4, 3, 2, 1);
    Column(s0, 2, 1, 2, 1, 0, 4);
    Column(s0, 2, 2, 0, 4, 3, 2);
    Column(s0, 2, 3, 3, 2, 1, 0);
    Column(s0, 2, 4, 1, 0, 4, 3);
    Columns(s0, 2);
    var c0 := Xor(Xor(Xor(Xor(s[0], s[20]), s[15]), s[10]), s[5]);
    var c1 := Xor(Xor(Xor(Xor(s[16], s[11]), s[6]), s[1]), s[21]);
    var c2 := Xor(Xor(Xor(Xor(s[7], s[2]), s[22]), s[17]), s[12]);
    var c3 := Xor(Xor(Xor(Xor(s[23], s[18]), s[13]), s[8]), s[3]);
    var c4 := Xor(Xor(Xor(Xor(s[14], s[9]), s[4]), s[24]), s[19]);
    var d0 := Xor(c4, Rol64(c1, 1));
    var d1 := Xor(c0, Rol64(c2, 1));
    var d2 := Xor(c1, Rol64(c3, 1));
    var d3 := Xor(c2, Rol64(c4, 1));
    var d4 := Xor(c3, Rol64(c0, 1));
    Sources(s0, 2, 0, 0, 0, 11, 44, 22, 43, 8, 21, 19, 14);
    FirstPlane(s, Xor(s[0], d0), Rol64(Xor(s[11], d1), 44), Rol64(Xor(s[22], d2), 43), Rol64(Xor(s[8], d3), 21), Rol64(Xor(s[19], d4), 14),
          0, 11, 22, 8, 19, rc, 3, a);
    Sources(s0, 2, 1, 23, 28, 9, 20, 15, 3, 1, 45, 12, 61);
    Plane(s, Rol64(Xor(s[23], d3), 28), Rol64(Xor(s[9], d4), 20), Rol64(Xor(s[15], d0), 3), Rol64(Xor(s[1], d1), 45), Rol64(Xor(s[12], d2), 61),
          15, 1, 12, 23, 9, 3, a, rc, 1);
    Sources(s0, 2, 2, 16, 1, 2, 6, 13, 25, 24, 8, 5, 18);
    Plane(s, Rol64(Xor(s[16], d1), 1), Rol64(Xor(s[2], d2), 6), Rol64(Xor(s[13], d3), 25), Rol64(Xor(s[24], d4), 8), Rol64(Xor(s[5], d0), 18),
          5, 16, 2, 13, 24, 3, a, rc, 2);
    Sources(s0, 2, 3, 14, 27, 20, 36, 6, 10, 17, 15, 3, 56);
    Plane(s, Rol64(Xor(s[14], d4), 27), Rol64(Xor(s[20], d0), 36), Rol64(Xor(s[6], d1), 10), Rol64(Xor(s[17], d2), 15), Rol64(Xor(s[3], d3), 56),
          20, 6, 17, 3, 14, 3, a, rc, 3);
    Sources(s0, 2, 4, 7, 62, 18, 55, 4, 39, 10, 41, 21, 2);
    Plane(s, Rol64(Xor(s[7], d2), 62), Rol64(Xor(s[18], d3), 55), Rol64(Xor(s[4], d4), 39), Rol64(Xor(s[10], d0), 41), Rol64(Xor(s[21], d1), 2),
          10, 21, 7, 18, 4, 3, a, rc, 4);
    RoundDone(s[..], 3, a, rc);
  }

  /** The fourth of the four unrolled rounds: lanes are found where three in-place rounds put them
      and left where a full turn of them leaves them. */
  method UnrolledRound3(s: array<u64>, rc: u64)
    requires s.Length == 25
    modifies s
    ensures View(s[..], 4) == Rnd(View(old(s[..]), 3), rc)
  {
    hide Xor, Mix, Rol64, ColumnParity, ThetaEffect, FeedWord, FromLanes, View, RowsDone, Rnd;
    ghost var s0, a := s[..], View(s[..], 3);
    Column(s0, 3, 0, 3, 1, 4, 2);
    Column(s0, 3, 1, 0, 3, 1, 4);
    Column(s0, 3, 2, 2, 0, 3, 1);
    Column(s0, 3, 3, 4, 2, 0, 3);
    Column(s0, 3, 4, 1, 4, 2, 0);
    Columns(s0, 3);
    var c0 := Xor(Xor(Xor(Xor(s[0], s[15]), s[5]), s[20]), s[10]);
    var c1 := Xor(Xor(Xor(Xor(s[11], s[1]), s[16]), s[6]), s[21]);
    var c2 := Xor(Xor(Xor(Xor(s[22], s[12]), s[2]), s[17]), s[7]);
    var c3 := Xor(Xor(Xor(Xor(s[8], s[23]), s[13]), s[3]), s[18]);
    var c4 := Xor(Xor(Xor(Xor(s[19], s[9]), s[24]), s[14]), s[4]);
    var d0 := Xor(c4, Rol64(c1, 1));
    var d1 := Xor(c0, Rol64(c2, 1));
    var d2 := Xor(c1, Rol64(c3, 1));
    var d3 := Xor(c2, Rol64(c4, 1));
    var d4 := Xor(c3, Rol64(c0, 1));
    Sources(s0, 3, 0, 0, 0, 1, 44, 2, 43, 3, 21, 4, 14);
    FirstPlane(s, Xor(s[0], d0), Rol64(Xor(s[1], d1), 44), Rol64(Xor(s[2], d2), 43), Rol64(Xor(s[3], d3), 21), Rol64(Xor(s[4], d4), 14),
          0, 1, 2, 3, 4, rc, 4, a);
    Sources(s0, 3, 1, 8, 28, 9, 20, 5, 3, 6, 45, 7, 61);
    Plane(s, Rol64(Xor(s[8], d3), 28), Rol64(Xor(s[9], d4), 20), Rol64(Xor(s[5], d0), 3), Rol64(Xor(s[6], d1), 45), Rol64(Xor(s[7], d2), 61),
          5, 6, 7, 8, 9, 4, a, rc, 1);
    Sources(s0, 3, 2, 11, 1, 12, 6, 13, 25, 14, 8, 10, 18);
    Plane(s, Rol64(Xor(s[11], d1), 1), Rol64(Xor(s[12], d2), 6), Rol64(Xor(s[13], d3), 25), Rol64(Xor(s[14], d4), 8), Rol64(Xor(s[10], d0), 18),
          10, 11, 12, 13, 14, 4, a, rc, 2);
    Sources(s0, 3, 3, 19, 27, 15, 36, 16, 10, 17, 15, 18, 56);
    Plane(s, Rol64(Xor(s[19], d4), 27), Rol64(Xor(s[15], d0), 36), Rol64(Xor(s[16], d1), 10), Rol64(Xor(s[17], d2), 15), Rol64(Xor(s[18], d3), 56),
          15, 16, 17, 18, 19, 4, a, rc, 3);
    Sources(s0, 3, 4, 22, 62, 23, 55, 24, 39, 20, 41, 21, 2);
    Plane(s, Rol64(Xor(s[22], d2), 62), Rol64(Xor(s[23], d3), 55), Rol64(Xor(s[24], d4), 39), Rol64(Xor(s[20], d0), 41), Rol64(Xor(s[21], d1), 2),
          20, 21, 22, 23, 24, 4, a, rc, 4);
    RoundDone(s[..], 4, a, rc);
  }

  /** The whole permutation, four rounds a turn, in place. */
  method KeccakF1600Step(s: array<u64>)
    requires s.Length == 25
    modifies s
    ensures s[..] == KeccakF(old(s[..]))
    ensures exists t: seq<State> ::
      && |t| == 25 && t[0] == old(s[..]) && t[24] == s[..]
      && forall k | 0 <= k < 24 :: t[k + 1] == Rnd(t[k], U64(RC(k)))
  {
    hide View, Rnd, U64, RoundConstant, Row;
    ghost var t: seq<State> := [s[..]];
    var i := 0;
    while i < 24
      invariant 0 <= i <= 24 && i % 4 == 0
      invariant s[..] == Rounds(old(s[..]), i)
      invariant |t| == i + 1 && t[0] == old(s[..]) && t[i] == s[..]
      invariant forall k | 0 <= k < i :: t[k + 1] == Rnd(t[k], U64(RC(k)))
    {
      ghost var a: State, n := old(s[..]), i;
      ViewHome(s[..]);
      UnrolledRound0(s, U64(RC(i)));
      UnrolledRound1(s, U64(RC(i + 1)));
      UnrolledRound2(s, U64(RC(i + 2)));
      UnrolledRound3(s, U64(RC(i + 3)));
      ViewHome(s[..]);
      TableIsGenerated(i);
      TableIsGenerated(i + 1);
      TableIsGenerated(i + 2);
      TableIsGenerated(i + 3);
      assert Rounds(a, n + 1) == Rnd(Rounds(a, n), RoundConstant(n));
      assert Rounds(a, n + 2) == Rnd(Rounds(a, n + 1), RoundConstant(n + 1));
      assert Rounds(a, n + 3) == Rnd(Rounds(a, n + 2), RoundConstant(n + 2));
      t := t + [Rounds(a, n + 1), Rounds(a, n + 2), Rounds(a, n + 3), s[..]];
      i := i + 4;
    }
  }
}
