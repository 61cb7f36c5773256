/** The sponge construction and the SHA-3 functions of FIPS 202 (sections 4, 5.1 and 6.1) on bit
    strings, and their equivalence with feeding padded bytes one at a time. */
module Sponge {
  import opened Seqs
  import opened MachineWords
  import opened Fips202
  import opened Modular

  // ---- The standard, on bits ----

  function ZeroState(): (r: State) { seq(25, _ => Zeros(64)) }

  /** `a` with the bit string `p` xored into its state string at bit `at` (section 3.1.2 order). */
  function XorBits(a: State, at: nat, p: seq<bool>): (r: State) {
    seq(25, i requires 0 <= i < 25 => XorLane(a[i], 64 * i, at, p))
  }

  /** Its effect on the lane whose first bit is bit `base` of the state string. */
  function XorLane(w: u64, base: nat, at: nat, p: seq<bool>): (r: u64) {
    seq(64, z requires 0 <= z < 64 => if at <= base + z < at + |p| then w[z] != p[base + z - at] else w[z])
  }

  /** Absorb the blocks of `p`; the padding makes its length a multiple of the rate `r`. */
  function Absorb(a: State, p: seq<bool>, r: nat): (res: State)
    requires 0 < r
    decreases |p|
  {
    if |p| < r then a else Absorb(KeccakF(XorBits(a, 0, p[..r])), p[r..], r)
  }

  function StateString(a: State): (s: seq<bool>)
    ensures |s| == 1600
  {
    seq(1600, j requires 0 <= j < 1600 => a[j / 64][j % 64])
  }

  /** Bit `j` of a state is bit `j % 64` of lane `j / 64`; none is set at first, and xoring changes those of
      its own from `at` on. */
  lemma StateInBits(a: State, at: nat, p: seq<bool>, j: nat)
    requires j < 1600
    ensures StateString(a)[j] == a[j / 64][j % 64] && !StateString(ZeroState())[j]
    ensures StateString(XorBits(a, at, p))[j] == (a[j / 64][j % 64] != (at <= j < at + |p| && p[j - at]))
  {
    assert 64 * (j / 64) + j % 64 == j;
  }

  function Squeeze(a: State, r: nat, d: nat): (res: seq<bool>)
    requires 0 < r <= 1600
    decreases d
  {
    if d <= r then StateString(a)[..d] else StateString(a)[..r] + Squeeze(KeccakF(a), r, d - r)
  }

  /** The padding rule pad10*1. */
  function Pad101(x: nat, m: nat): (r: seq<bool>)
    requires 0 < x
  {
    [true] + Zeros(PadZeros(x, m)) + [true]
  }

  function PadZeros(x: nat, m: nat): (r: nat)
    requires 0 < x
  {
    (-(m as int) - 2) % x
  }

  function SpongeHash(r: nat, n: seq<bool>, d: nat): (res: seq<bool>)
    requires 0 < r <= 1600
  {
    Squeeze(Absorb(ZeroState(), n + Pad101(r, |n|), r), r, d)
  }

  /** SHA3-d of section 6.1: capacity `2d` and the suffix 01. */
  function Sha3(m: seq<bool>, d: nat): (r: seq<bool>)
    requires 0 < d < 800
  {
    SpongeHash(1600 - 2 * d, m + [false, true], d)
  }

  // ---- The same, a byte at a time ----

  /** The bits of a byte string, least significant bit of each byte first (Appendix B.1). */
  function Bits(m: seq<u8>): (b: seq<bool>)
    ensures |b| == 8 * |m|
  {
    if m == [] then [] else m[0] + Bits(m[1..])
  }

  lemma {:induction false} BitsStep(m: seq<u8>)
    ensures Bits(m) == if m == [] then [] else m[0] + Bits(m[1..])
  {}

  lemma {:induction false} BitsOfByte(m: seq<u8>, i: nat, j: nat)
    requires i < |m| && j < 8
    ensures Bits(m)[8 * i + j] == m[i][j]
  {
    BitsStep(m);
    hide Bits;
    if i > 0 {
      BitsOfByte(m[1..], i - 1, j);
    }
  }

  lemma {:induction false} BitsConcat(m: seq<u8>, n: seq<u8>)
    ensures Bits(m + n) == Bits(m) + Bits(n)
  {
    BitsStep(m);
    BitsStep(m + n);
    hide Bits;
    if m == [] {
      assert m + n == n && [] + Bits(n) == Bits(n);
    } else {
      assert (m + n)[1..] == m[1..] + n;
      BitsConcat(m[1..], n);
      assert m[0] + (Bits(m[1..]) + Bits(n)) == m[0] + Bits(m[1..]) + Bits(n);
    }
  }

  /** A sponge that has taken `n` bytes of the current block. */
  datatype Loading = Loading(a: State, n: nat)

  /** `r` is the rate in bytes. */
  function Feed(l: Loading, r: nat, b: u8): (res: Loading) {
    if l.n + 1 == r then Loading(KeccakF(XorBits(l.a, 8 * l.n, b)), 0) else Loading(XorBits(l.a, 8 * l.n, b), l.n + 1)
  }

  function FeedAll(l: Loading, r: nat, m: seq<u8>): (res: Loading)
    decreases |m|
  {
    if m == [] then l else FeedAll(Feed(l, r, m[0]), r, m[1..])
  }

  lemma {:induction false} FeedAllConcat(l: Loading, r: nat, m: seq<u8>, n: seq<u8>)
    ensures FeedAll(l, r, m + n) == FeedAll(FeedAll(l, r, m), r, n)
    decreases |m|
  {
    FeedOne(l, r, m);
    FeedOne(l, r, m + n);
    hide FeedAll, Feed;
    if m == [] {
      assert m + n == n;
    } else {
      assert (m + n)[1..] == m[1..] + n;
      FeedAllConcat(Feed(l, r, m[0]), r, m[1..], n);
    }
  }

  lemma XorBitsConcat(a: State, at: nat, p: seq<bool>, q: seq<bool>)
    ensures XorBits(XorBits(a, at, p), at + |p|, q) == XorBits(a, at, p + q)
  {
    var b := XorBits(a, at, p);
    forall i | 0 <= i < 25 ensures XorBits(b, at + |p|, q)[i] == XorBits(a, at, p + q)[i] {
      forall z | 0 <= z < 64 ensures XorBits(b, at + |p|, q)[i][z] == XorBits(a, at, p + q)[i][z] {}
    }
  }

  lemma XorNothing(a: State, at: nat)
    ensures XorBits(a, at, []) == a
  {
    forall i | 0 <= i < 25 ensures XorBits(a, at, [])[i] == a[i] {}
  }

  lemma XorZeros(a: State, at: nat, n: nat)
    ensures XorBits(a, at, Zeros(n)) == a
  {
    forall i | 0 <= i < 25 ensures XorBits(a, at, Zeros(n))[i] == a[i] {}
  }

  /** Bytes that end before the block does only load it. */
  lemma {:induction false} FeedRun(l: Loading, r: nat, m: seq<u8>)
    requires l.n + |m| < r
    ensures FeedAll(l, r, m) == Loading(XorBits(l.a, 8 * l.n, Bits(m)), l.n + |m|)
    decreases |m|
  {
    if m == [] {
      XorNothing(l.a, 8 * l.n);
    } else {
      FeedRun(Feed(l, r, m[0]), r, m[1..]);
      XorBitsConcat(l.a, 8 * l.n, m[0], Bits(m[1..]));
    }
  }

  /** Bytes that end with the block load it and permute the state. */
  lemma {:induction false} FeedToEnd(l: Loading, r: nat, m: seq<u8>)
    requires l.n < r && l.n + |m| == r
    ensures FeedAll(l, r, m) == Loading(KeccakF(XorBits(l.a, 8 * l.n, Bits(m))), 0)
    decreases |m|
  {
    var k := |m| - 1;
    assert m == m[..k] + [m[k]];
    FeedAllConcat(l, r, m[..k], [m[k]]);
    FeedRun(l, r, m[..k]);
    BitsConcat(m[..k], [m[k]]);
    assert Bits([m[k]]) == m[k] + Bits([]);
    assert m[k] + [] == m[k];
    XorBitsConcat(l.a, 8 * l.n, Bits(m[..k]), m[k]);
    var l' := FeedAll(l, r, m[..k]);
    assert FeedAll(l', r, [m[k]]) == Feed(l', r, m[k]);
  }

  /** Feeding whole blocks of bytes absorbs them. */
  lemma {:induction false} FeedBlocks(a: State, r: nat, m: seq<u8>)
    requires 0 < r && |m| % r == 0
    ensures FeedAll(Loading(a, 0), r, m) == Loading(Absorb(a, Bits(m), 8 * r), 0)
    decreases |m|
  {
    if m != [] {
      assert |m| >= r;
      var b, rest := m[..r], m[r..];
      assert m == b + rest;
      AddTurn(|rest|, r);
      FeedAllConcat(Loading(a, 0), r, b, rest);
      FeedToEnd(Loading(a, 0), r, b);
      FeedBlocks(KeccakF(XorBits(a, 0, Bits(b))), r, rest);
      BitsConcat(b, rest);
      assert Bits(m)[..8 * r] == Bits(b) && Bits(m)[8 * r..] == Bits(rest);
    }
  }

  /** The position in the block counts the bytes modulo the rate. */
  lemma {:induction false} Loaded(l: Loading, r: nat, m: seq<u8>)
    requires l.n < r
    ensures FeedAll(l, r, m).n < r
    ensures FeedAll(l, r, m).n == (l.n + |m|) % r
    decreases |m|
  {
    hide FeedAll;
    FeedOne(l, r, m);
    if m == [] {
      Small(l.n, r);
    } else {
      var l' := Feed(l, r, m[0]);
      Loaded(l', r, m[1..]);
      if l.n + 1 == r {
        AddTurn(|m| - 1, r);
      } else {
        assert l'.n + |m[1..]| == l.n + |m|;
      }
    }
  }

  lemma {:induction false} FeedOne(l: Loading, r: nat, m: seq<u8>)
    ensures m == [] ==> FeedAll(l, r, m) == l
    ensures m != [] ==> FeedAll(l, r, m) == FeedAll(Feed(l, r, m[0]), r, m[1..])
    ensures l.n < r && m != [] ==> var n := Feed(l, r, m[0]).n; n < r && n == if l.n + 1 == r then 0 else l.n + 1
  {
    hide KeccakF, XorBits;
  }

  // ---- Padding ----

  function ZeroBytes(k: nat): (s: seq<u8>)
    ensures |s| == k
  {
    if k == 0 then [] else [U8(0)] + ZeroBytes(k - 1)
  }

  /** The padding bytes of Appendix B.2 after `n` bytes of the last block. */
  function PadBytes(n: nat, r: nat): (p: seq<u8>)
    requires n < r
    ensures |p| == r - n
  {
    if n == r - 1 then [U8(0x86)] else [U8(0x06)] + ZeroBytes(r - n - 2) + [U8(0x80)]
  }

  lemma {:induction false} BitsOfZeroBytes(k: nat)
    ensures Bits(ZeroBytes(k)) == Zeros(8 * k)
  {
    if k > 0 {
      BitsOfZeroBytes(k - 1);
      assert ZeroBytes(k)[1..] == ZeroBytes(k - 1);
      assert U8(0) == Zeros(8) by {
        forall z | 0 <= z < 8 ensures !Digit(0, z) {
          ZeroDigit(z);
        }
      }
      assert Zeros(8) + Zeros(8 * (k - 1)) == Zeros(8 * k);
    }
  }

  lemma {:induction false} OctetBits(n: nat)
    ensures U8(n) == [Digit(n, 0), Digit(n, 1), Digit(n, 2), Digit(n, 3), Digit(n, 4), Digit(n, 5), Digit(n, 6), Digit(n, 7)]
  {
    hide Digit;
  }

  lemma PadByteBits()
    ensures U8(0x06) == [false, true, true] + Zeros(5)
    ensures U8(0x80) == Zeros(7) + [true]
    ensures U8(0x86) == [false, true, true] + Zeros(4) + [true]
  {
    OctetBits(0x06);
    OctetBits(0x80);
    OctetBits(0x86);
    assert !Digit(0x06, 0) && Digit(0x06, 1) && Digit(0x06, 2) && !Digit(0x06, 3);
    assert !Digit(0x06, 4) && !Digit(0x06, 5) && !Digit(0x06, 6) && !Digit(0x06, 7);
    assert !Digit(0x80, 0) && !Digit(0x80, 1) && !Digit(0x80, 2) && !Digit(0x80, 3);
    assert !Digit(0x80, 4) && !Digit(0x80, 5) && !Digit(0x80, 6) && Digit(0x80, 7);
    assert !Digit(0x86, 0) && Digit(0x86, 1) && Digit(0x86, 2) && !Digit(0x86, 3);
    assert !Digit(0x86, 4) && !Digit(0x86, 5) && !Digit(0x86, 6) && Digit(0x86, 7);
    hide Digit;
  }

  lemma {:induction false} ZeroDigit(z: nat)
    ensures !Digit(0, z)
  {
    if z > 0 {
      ZeroDigit(z - 1);
    }
  }

  lemma BitsOfOne(b: u8)
    ensures Bits([b]) == b
  {
    assert Bits([b]) == b + Bits([]);
  }

  lemma PadBits(n: nat, r: nat)
    requires n < r
    ensures Bits(PadBytes(n, r)) == [false, true] + ([true] + Zeros(8 * (r - n) - 4) + [true])
  {
    PadByteBits();
    hide U8;
    BitsOfOne(U8(0x86));
    if n < r - 1 {
      var k := r - n - 2;
      BitsConcat([U8(0x06)] + ZeroBytes(k), [U8(0x80)]);
      BitsConcat([U8(0x06)], ZeroBytes(k));
      BitsOfOne(U8(0x06));
      BitsOfOne(U8(0x80));
      BitsOfZeroBytes(k);
      hide Bits;
    }
  }

  lemma PadLength(m: nat, r: nat)
    requires 0 < r
    ensures (m + (r - m % r)) % r == 0
    ensures PadZeros(8 * r, 8 * m + 2) == 8 * (r - m % r) - 4
  {
    var q, n := m / r, m % r;
    assert m == r * q + n;
    assert m + (r - n) == r * (q + 1);
    Remainder(m + (r - n), r, q + 1, 0);
    assert (8 * r) * (-q - 1) == -8 * (r * q) - 8 * r;
    Remainder(-(8 * m + 2) - 2, 8 * r, -q - 1, 8 * (r - n) - 4);
  }

  lemma {:induction false} PaddedBits(m: seq<u8>, n: nat, r: nat, x: nat, len: nat)
    requires n < r && 0 < x && PadZeros(x, len) == 8 * (r - n) - 4
    ensures Bits(m + PadBytes(n, r)) == (Bits(m) + [false, true]) + Pad101(x, len)
  {
    hide PadZeros, Bits, PadBytes, Zeros;
    PadBits(n, r);
    BitsConcat(m, PadBytes(n, r));
    Assoc(Bits(m), [false, true], Pad101(x, len));
  }

  /** The byte padding of the code is the bit padding of the standard: the suffix 01 of SHA-3 and
      then pad10*1, read as bytes. */
  lemma {:induction false} PaddingAgrees(m: seq<u8>, n: nat, r: nat)
    requires 0 < r && n == |m| % r
    ensures Bits(m + PadBytes(n, r)) == (Bits(m) + [false, true]) + Pad101(8 * r, 8 * |m| + 2)
    ensures (|m| + (r - n)) % r == 0
  {
    hide *;
    PadLength(|m|, r);
    PaddedBits(m, n, r, 8 * r, 8 * |m| + 2);
  }
}
