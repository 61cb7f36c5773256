/** The hash context of the shell: SHA3Init, SHA3Update and SHA3Final over the union of 25 words
    and 1600 bytes, for the three byte-order builds. */
module Sha3Engine {
  import opened MachineWords
  import opened Fips202
  import Keccak
  import opened Modular
  import opened Sponge

  /** SHA3_BYTEORDER: 1234, 4321 or 0 (decided at run time). */
  datatype ByteOrder = Little | Big | Runtime

  /** Byte `k` of a word, counted from the least significant. */
  function ByteOf(w: u64, k: nat): (r: u8)
    requires k < 8
  {
    w[8 * k..8 * k + 8]
  }

  function PutByte(w: u64, k: nat, b: u8): (r: u64)
    requires k < 8
  {
    w[..8 * k] + b + w[8 * k + 8..]
  }

  lemma PutByteAt(w: u64, k: nat, b: u8, j: nat)
    requires k < 8 && j < 8
    ensures ByteOf(PutByte(w, k, b), j) == if j == k then b else ByteOf(w, j)
  {
    var v := PutByte(w, k, b);
    if j < k {
      assert v[8 * j..8 * j + 8] == w[8 * j..8 * j + 8];
    } else if j > k {
      assert v[8 * j..8 * j + 8] == w[8 * j..8 * j + 8];
    }
  }

  /** `j ^ mask` for the two masks in use, 0 and 7. */
  function Masked(j: nat, mask: nat): (r: nat)
    requires mask == 0 || mask == 7
  {
    if mask == 0 then j else 8 * (j / 8) + (7 - j % 8)
  }

  /** Byte `i` of a state in the standard's order. */
  function StateByte(a: State, i: nat): (r: u8)
    requires i < 200
  {
    ByteOf(a[i / 8], i % 8)
  }

  /** Xoring one byte of the state touches one byte of one word. */
  lemma XorOneByte(a: State, n: nat, b: u8)
    requires n < 200
    ensures XorBits(a, 8 * n, b) == a[n / 8 := PutByte(a[n / 8], n % 8, Xor8(ByteOf(a[n / 8], n % 8), b))]
  {
    var k := n / 8;
    var x := XorBits(a, 8 * n, b);
    var w := PutByte(a[k], n % 8, Xor8(ByteOf(a[k], n % 8), b));
    forall i | 0 <= i < 25 ensures x[i] == a[k := w][i] {
      forall z | 0 <= z < 64 ensures x[i][z] == a[k := w][i][z] {}
    }
  }

  /** Xoring an aligned word of the state is one word operation. */
  lemma XorOneWord(a: State, k: nat, w: u64)
    requires k < 25
    ensures XorBits(a, 64 * k, w) == a[k := Xor(a[k], w)]
  {
    var x := XorBits(a, 64 * k, w);
    forall i | 0 <= i < 25 ensures x[i] == a[k := Xor(a[k], w)][i] {
      forall z | 0 <= z < 64 ensures x[i][z] == a[k := Xor(a[k], w)][i][z] {}
    }
  }

  /** Eight bytes fed at a word boundary. */
  lemma {:induction false} FeedWord(l: Loading, r: nat, m: seq<u8>)
    requires |m| == 8 && l.n % 8 == 0 && r % 8 == 0 && l.n < r <= 200
    ensures var a := l.a[l.n / 8 := Xor(l.a[l.n / 8], Bits(m))];
      FeedAll(l, r, m) == if l.n + 8 >= r then Loading(KeccakF(a), 0) else Loading(a, l.n + 8)
  {
    hide Xor, KeccakF, Bits, XorBits, FeedAll;
    XorOneWord(l.a, l.n / 8, Bits(m));
    if l.n + 8 == r {
      FeedToEnd(l, r, m);
    } else {
      FeedRun(l, r, m);
    }
  }

  /** The rate in bytes chosen for a hash of `iSize` bits. */
  function RateFor(iSize: int): (r: nat) {
    if 128 <= iSize <= 512 then 200 - (iSize + 31) / 32 * 8 else 136
  }

  /** The capacity is twice the size, taken up to whole words, or 512 bits for a size out of range. */
  lemma RateOfSize(iSize: int, bits: int)
    requires bits % 32 == 0 && iSize <= bits < iSize + 32
    ensures 8 * RateFor(iSize) == if 128 <= iSize <= 512 then 1600 - 2 * bits else 1600 - 2 * 256
  {
    assert bits / 32 == (iSize + 31) / 32;
  }

  predicate StandardSize(iSize: int) { iSize == 224 || iSize == 256 || iSize == 384 || iSize == 512 }

  /** For the four sizes of section 6.1 the capacity is twice the size. */
  lemma StandardRate(iSize: int)
    requires StandardSize(iSize)
    ensures iSize > 0 && iSize % 8 == 0 && 8 * RateFor(iSize) == 1600 - 2 * iSize && iSize <= 8 * RateFor(iSize)
  {
    if iSize == 224 {} else if iSize == 256 {} else if iSize == 384 {} else {}
  }

  class SHA3Context {
    const order: ByteOrder
    const bigEndian: bool
    const s: array<u64>
    /** The bytes of `u.x` past the 200 that overlay `u.s`. */
    const tail: array<u8>
    var nRate: nat
    var nLoaded: nat
    var ixMask: nat
    ghost var fed: seq<u8>

    ghost predicate Shaped()
      reads this
    {
      && s.Length == 25 && tail.Length == 1400
      && (order == Little ==> !bigEndian) && (order == Big ==> bigEndian)
      && ixMask == (if bigEndian then 7 else 0)
      && 0 < nRate <= 168 && nRate % 8 == 0
    }

    /** The lanes and the fill count are those of the standard's sponge after the bytes fed so far. */
    ghost predicate Valid()
      reads this, s
    {
      && Shaped()
      && nLoaded < nRate
      && Loading(s[..], nLoaded) == FeedAll(Loading(ZeroState(), 0), nRate, fed)
    }

    /** `u.x[j]`: on a big-endian machine the bytes of each word lie in the other order. */
    function XAt(j: nat): (r: u8)
      requires j < 1600 && s.Length == 25 && tail.Length == 1400
      reads s, tail
    {
      if j < 200 then ByteOf(s[j / 8], if bigEndian then 7 - j % 8 else j % 8) else tail[j - 200]
    }

    function XSlice(p: nat, n: nat): (r: seq<u8>)
      requires p + n <= 1600 && s.Length == 25 && tail.Length == 1400
      reads s, tail
      ensures |r| == n && forall i | 0 <= i < n :: r[i] == XAt(p + i)
    {
      if n == 0 then [] else XSlice(p, n - 1) + [XAt(p + n - 1)]
    }

    method SetX(j: nat, b: u8)
      requires j < 1600 && s.Length == 25 && tail.Length == 1400
      modifies s, tail
      ensures XAt(j) == b
      ensures forall k | 0 <= k < 1600 && k != j :: XAt(k) == old(XAt(k))
      ensures j < 200 ==> s[..] == old(s[..])[j / 8 := PutByte(old(s[j / 8]), if bigEndian then 7 - j % 8 else j % 8, b)]
    {
      if j < 200 {
        var k := if bigEndian then 7 - j % 8 else j % 8;
        ghost var w := s[j / 8];
        s[j / 8] := PutByte(s[j / 8], k, b);
        forall i | 0 <= i < 8 ensures ByteOf(s[j / 8], i) == if i == k then b else ByteOf(w, i) {
          PutByteAt(w, k, b, i);
        }
      } else {
        tail[j - 200] := b;
      }
    }

    constructor Init(iSize: int, order: ByteOrder, bigEndian: bool)
      requires (order == Little ==> !bigEndian) && (order == Big ==> bigEndian)
      ensures Valid() && fed == [] && fresh(s) && fresh(tail)
      ensures nRate == RateFor(iSize)
    {
      this.order, this.bigEndian := order, bigEndian;
      s := new u64[25](_ => Zeros(64));
      tail := new u8[1400](_ => Zeros(8));
      nLoaded := 0;
      if 128 <= iSize <= 512 {
        nRate := (1600 - (iSize + 31) / 32 * 32 * 2) / 8;
      } else {
        nRate := (1600 - 2 * 256) / 8;
      }
      match order {
        case Little => ixMask := 0;
        case Big => ixMask := 7;
        case Runtime => ixMask := if bigEndian then 7 else 0;
      }
      fed := [];
      new;
      assert s[..] == ZeroState();
    }

    /** What the hash has absorbed: the lanes and how many bytes of the block are loaded. */
    ghost function Now(): (r: Loading)
      requires s.Length == 25
      reads this, s
    {
      Loading(s[..], nLoaded)
    }

    /** The body of the word loop: `m` is the eight bytes one aligned load reads. */
    method TakeWord(m: seq<u8>)
      requires Shaped() && nLoaded < nRate && nLoaded % 8 == 0 && |m| == 8
      modifies this`nLoaded, s
      ensures nLoaded < nRate && nLoaded % 8 == 0
      ensures Now() == FeedAll(old(Now()), nRate, m)
    {
      hide Bits;
      FeedWord(Now(), nRate, m);
      s[nLoaded / 8] := Xor(s[nLoaded / 8], Bits(m));
      nLoaded := nLoaded + 8;
      if nLoaded >= nRate {
        Keccak.KeccakF1600Step(s);
        nLoaded := 0;
      }
    }

    /** The body of the byte loop. */
    method TakeByte(b: u8)
      requires Shaped() && nLoaded < nRate
      modifies this`nLoaded, s, tail
      ensures nLoaded < nRate
      ensures Now() == FeedAll(old(Now()), nRate, [b])
    {
      hide XorBits, KeccakF;
      XorOneByte(s[..], nLoaded, b);
      assert FeedAll(Now(), nRate, [b]) == Feed(Now(), nRate, b);
      var j := match order case Little => nLoaded case Big => Masked(nLoaded, 7) case Runtime => Masked(nLoaded, ixMask);
      SetX(j, Xor8(XAt(j), b));
      nLoaded := nLoaded + 1;
      if nLoaded == nRate {
        Keccak.KeccakF1600Step(s);
        nLoaded := 0;
      }
    }

    /** `aligned` tells whether the address of the data is a multiple of eight. */
    method Update(aData: seq<u8>, aligned: bool)
      requires Valid()
      modifies this`nLoaded, this`fed, s, tail
      ensures Valid() && fed == old(fed) + aData
    {
      hide FeedAll;
      ghost var l0 := Now();
      var i := 0;
      FedNothing(l0, nRate);
      if order == Little && nLoaded % 8 == 0 && aligned {
        while i + 7 < |aData|
          invariant 0 <= i <= |aData|
          invariant nLoaded < nRate && nLoaded % 8 == 0 && fed == old(fed)
          invariant Now() == FeedAll(l0, nRate, aData[..i])
        {
          TakeWord(aData[i..i + 8]);
          FedMore(l0, nRate, aData, i, i + 8);
          i := i + 8;
        }
      }
      while i < |aData|
        invariant 0 <= i <= |aData|
        invariant nLoaded < nRate && fed == old(fed)
        invariant Now() == FeedAll(l0, nRate, aData[..i])
      {
        TakeByte(aData[i]);
        assert aData[i..i + 1] == [aData[i]];
        FedMore(l0, nRate, aData, i, i + 1);
        i := i + 1;
      }
      assert aData[..i] == aData;
      FeedAllConcat(Loading(ZeroState(), 0), nRate, fed, aData);
      fed := fed + aData;
    }

    /** The padding and the last permutation. */
    method Pad()
      requires Valid()
      modifies this`nLoaded, this`fed, s, tail
      ensures s[..] == Padded(old(fed), nRate)
    {
      hide FeedAll, PadBytes;
      ghost var m := fed;
      PadIsFed(m, nRate, Now());
      if nLoaded == nRate - 1 {
        Update([U8(0x86)], false);
      } else {
        ghost var l := Now();
        Update([U8(0x06)], false);
        FeedAllConcat(Loading(ZeroState(), 0), nRate, m, [U8(0x06)]);
        nLoaded := nRate - 1;
        TakeByte(U8(0x80));
      }
    }

    lemma MaskedByte(k: nat)
      requires Shaped() && k < 200
      ensures XAt(Masked(k, ixMask)) == StateByte(s[..], k)
    {
      if bigEndian {
        var j := 8 * (k / 8) + (7 - k % 8);
        assert j / 8 == k / 8 && j % 8 == 7 - k % 8;
      }
    }

    /** The copy of the first block to the bytes after it, undoing the byte order. */
    method CopyOut()
      requires Shaped()
      modifies s, tail
      ensures forall i | 0 <= i < nRate :: XAt(nRate + i) == StateByte(old(s[..]), i)
    {
      ghost var a := s[..];
      forall k | 0 <= k < nRate ensures Masked(k, ixMask) < nRate && XAt(Masked(k, ixMask)) == StateByte(a, k) {
        MaskedBelow(k, nRate, ixMask);
        MaskedByte(k);
      }
      hide Masked, StateByte, XAt;
      ghost var r := nRate;
      CopyBlock(seq(r, k requires 0 <= k < r => StateByte(a, k)));
    }

    method CopyBlock(ghost want: seq<u8>)
      requires Shaped() && |want| == nRate
      requires forall k | 0 <= k < nRate :: Masked(k, ixMask) < nRate && XAt(Masked(k, ixMask)) == want[k]
      modifies s, tail
      ensures forall i | 0 <= i < nRate :: XAt(nRate + i) == want[i]
    {
      hide Masked, XAt;
      var i := 0;
      while i < nRate
        invariant 0 <= i <= nRate
        invariant forall k | 0 <= k < nRate :: XAt(k) == old(XAt(k))
        invariant forall k | 0 <= k < i :: XAt(nRate + k) == want[k]
      {
        StoreX(i + nRate, XAt(Masked(i, ixMask)));
        i := i + 1;
      }
    }

    method StoreX(j: nat, b: u8)
      requires j < 1600 && s.Length == 25 && tail.Length == 1400
      modifies s, tail
      ensures XAt(j) == b && forall k | 0 <= k < 1600 && k != j :: XAt(k) == old(XAt(k))
    {
      hide XAt;
      SetX(j, b);
    }

    /** Returns the index in `u.x` of the binary hash. */
    method Final() returns (p: nat)
      requires Valid()
      modifies this`nLoaded, this`fed, s, tail
      ensures p == nRate
      ensures forall i | 0 <= i < nRate :: XAt(p + i) == StateByte(Padded(old(fed), nRate), i)
    {
      Pad();
      CopyOut();
      p := nRate;
    }
  }

  lemma MaskedBelow(i: nat, r: nat, mask: nat)
    requires i < r && r % 8 == 0 && (mask == 0 || mask == 7)
    ensures Masked(i, mask) < r
  {}

  /** The state after the message and its padding bytes. */
  function Padded(m: seq<u8>, r: nat): (res: State)
    requires 0 < r
  {
    FeedAll(Loading(ZeroState(), 0), r, m + PadBytes(|m| % r, r)).a
  }

  lemma FedNothing(l: Loading, r: nat)
    ensures forall m: seq<u8> :: FeedAll(l, r, m[..0]) == l
  {}

  lemma {:induction false} PadIsFed(m: seq<u8>, r: nat, l: Loading)
    requires 0 < r && l.n < r && l == FeedAll(Loading(ZeroState(), 0), r, m)
    ensures l.n == r - 1 ==> FeedAll(Loading(ZeroState(), 0), r, m + [U8(0x86)]).a == Padded(m, r)
    ensures l.n < r - 1 ==> FeedAll(Loading(FeedAll(l, r, [U8(0x06)]).a, r - 1), r, [U8(0x80)]).a == Padded(m, r)
  {
    Loaded(Loading(ZeroState(), 0), r, m);
    FeedAllConcat(Loading(ZeroState(), 0), r, m, PadBytes(l.n, r));
    if l.n < r - 1 {
      SkipZeros(l, r);
    }
  }

  /** The zero bytes of the padding are skipped: they would not change the lanes. */
  lemma {:induction false} SkipZeros(l: Loading, r: nat)
    requires l.n < r - 1
    ensures FeedAll(l, r, PadBytes(l.n, r)) ==
      FeedAll(Loading(FeedAll(l, r, [U8(0x06)]).a, r - 1), r, [U8(0x80)])
  {
    hide FeedAll, XorBits, Bits, KeccakF, U8;
    var k := r - l.n - 2;
    var zeros := ZeroBytes(k);
    var l1 := FeedAll(l, r, [U8(0x06)]);
    FeedAllConcat(l, r, [U8(0x06)] + zeros, [U8(0x80)]);
    FeedAllConcat(l, r, [U8(0x06)], zeros);
    FeedRun(l, r, [U8(0x06)]);
    FeedRun(l1, r, zeros);
    BitsOfZeroBytes(k);
    XorZeros(l1.a, 8 * l1.n, 8 * k);
  }

  lemma {:induction false} FedMore(l: Loading, r: nat, m: seq<u8>, i: nat, j: nat)
    requires i <= j <= |m|
    ensures FeedAll(l, r, m[..j]) == FeedAll(FeedAll(l, r, m[..i]), r, m[i..j])
  {
    assert m[..j] == m[..i] + m[i..j];
    FeedAllConcat(l, r, m[..i], m[i..j]);
  }

  // ---- The whole hash ----

  function Flatten(pieces: seq<seq<u8>>): (r: seq<u8>) {
    if pieces == [] then [] else pieces[0] + Flatten(pieces[1..])
  }

  lemma {:induction false} FlattenSnoc(pieces: seq<seq<u8>>, m: seq<u8>)
    ensures Flatten(pieces + [m]) == Flatten(pieces) + m
  {
    if pieces == [] {
      assert Flatten([m]) == m + Flatten([]);
    } else {
      FlattenSnoc(pieces[1..], m);
      assert (pieces + [m])[1..] == pieces[1..] + [m];
    }
  }

  function FirstBytes(a: State, n: nat): (r: seq<u8>)
    requires n <= 200
    ensures |r| == n
  {
    seq(n, i requires 0 <= i < n => StateByte(a, i))
  }

  lemma {:induction false} FirstBytesBits(a: State, n: nat)
    requires n <= 200
    ensures Bits(FirstBytes(a, n)) == StateString(a)[..8 * n]
  {
    if n > 0 {
      var b := StateByte(a, n - 1);
      assert FirstBytes(a, n) == FirstBytes(a, n - 1) + [b];
      hide *;
      FirstBytesBits(a, n - 1);
      BitsConcat(FirstBytes(a, n - 1), [b]);
      BitsOfOne(b);
      StateStringByte(a, n - 1);
      CutAgain(StateString(a), 8 * (n - 1), 8 * n);
    } else {
      assert FirstBytes(a, 0) == [];
    }
  }

  lemma CutAgain(s: seq<bool>, i: nat, j: nat)
    requires i <= j <= |s|
    ensures s[..j] == s[..i] + s[i..j]
  {}

  lemma StateStringByte(a: State, n: nat)
    requires n < 200
    ensures StateString(a)[8 * n..8 * n + 8] == StateByte(a, n)
  {
    var s := StateString(a);
    forall z | 0 <= z < 8 ensures s[8 * n + z] == StateByte(a, n)[z] {
      assert (8 * n + z) / 64 == n / 8 && (8 * n + z) % 64 == 8 * (n % 8) + z;
    }
  }

  lemma {:induction false} SpongeOnce(n: seq<bool>, r: nat, d: nat)
    requires d <= r && 0 < r <= 1600
    ensures SpongeHash(r, n, d) == StateString(Absorb(ZeroState(), n + Pad101(r, |n|), r))[..d]
  {
    hide Absorb, StateString, Pad101;
  }

  /** One squeezing block is enough, so the first `d` bits of the padded state are SHA3-d. */
  lemma {:induction false} PaddedIsSha3(m: seq<u8>, r: nat, d: nat)
    requires 0 < d < 800 && 8 * r == 1600 - 2 * d && d <= 8 * r && d % 8 == 0
    ensures Bits(FirstBytes(Padded(m, r), d / 8)) == Sha3(Bits(m), d)
  {
    hide Absorb, StateString, Pad101, Bits, FirstBytes, PadBytes, FeedAll;
    PaddingAgrees(m, |m| % r, r);
    FeedBlocks(ZeroState(), r, m + PadBytes(|m| % r, r));
    FirstBytesBits(Padded(m, r), d / 8);
    assert 8 * (d / 8) == d;
    SpongeOnce(Bits(m) + [false, true], 8 * r, d);
  }

  /** SHA3Final and the SIZE/8 bytes its callers copy from the pointer it returns. */
  method TakeDigest(cx: SHA3Context, iSize: nat) returns (digest: seq<u8>)
    requires cx.Valid() && 0 < iSize && iSize % 8 == 0 && 8 * cx.nRate == 1600 - 2 * iSize && iSize <= 8 * cx.nRate
    modifies cx`nLoaded, cx`fed, cx.s, cx.tail
    ensures |digest| == iSize / 8 && Bits(digest) == Sha3(Bits(old(cx.fed)), iSize)
  {
    ghost var m := cx.fed;
    var p := cx.Final();
    digest := cx.XSlice(p, iSize / 8);
    PaddedIsSha3(m, cx.nRate, iSize);
    assert digest == FirstBytes(Padded(m, cx.nRate), iSize / 8);
  }

  /** SHA3Init, any sequence of SHA3Update calls, SHA3Final, and the SIZE/8 bytes the callers take:
      SHA3-SIZE of the concatenation of the pieces, on every build and for every alignment. */
  method HashPieces(pieces: seq<seq<u8>>, aligned: seq<bool>, iSize: int, order: ByteOrder, bigEndian: bool)
      returns (digest: seq<u8>)
    requires StandardSize(iSize)
    requires |aligned| == |pieces|
    requires (order == Little ==> !bigEndian) && (order == Big ==> bigEndian)
    ensures |digest| == iSize / 8
    ensures Bits(digest) == Sha3(Bits(Flatten(pieces)), iSize)
  {
    StandardRate(iSize);
    hide RateFor, StandardSize;
    var cx := new SHA3Context.Init(iSize, order, bigEndian);
    var r := cx.nRate;
    var i := 0;
    while i < |pieces|
      invariant 0 <= i <= |pieces|
      invariant fresh(cx.s) && fresh(cx.tail)
      invariant cx.Valid() && cx.nRate == r && cx.fed == Flatten(pieces[..i])
    {
      FlattenSnoc(pieces[..i], pieces[i]);
      assert pieces[..i] + [pieces[i]] == pieces[..i + 1];
      cx.Update(pieces[i], aligned[i]);
      i := i + 1;
    }
    assert pieces[..i] == pieces;
    digest := TakeDigest(cx, iSize);
  }
}
