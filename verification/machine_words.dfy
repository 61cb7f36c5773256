/** Machine words as bit sequences, least significant bit first.

    `u8` and `u64` stand for C's `unsigned char` and `u64`; every operator the hash engine
    applies to them is defined bit by bit, so both the word-level code and the bit-level
    standard can be read off the same values. */
module MachineWords {

  type u8 = b: seq<bool> | |b| == 8 witness seq(8, _ => false)
  type u64 = w: seq<bool> | |w| == 64 witness seq(64, _ => false)

  /** Binary digit `z` of `n`. */
  predicate Digit(n: nat, z: nat) {
    if z == 0 then n % 2 == 1 else Digit(n / 2, z - 1)
  }

  /** The low `len` bits of `n`. */
  function BitsOf(n: nat, len: nat): (r: seq<bool>) {
    seq(len, z requires 0 <= z < len => Digit(n, z))
  }

  lemma BitsOfCons(n: nat, len: nat)
    requires len > 0
    ensures BitsOf(n, len) == [n % 2 == 1] + BitsOf(n / 2, len - 1)
  {}

  function U8(n: nat): (r: u8) { BitsOf(n, 8) }

  function U64(n: nat): (r: u64) { BitsOf(n, 64) }

  function Zeros(n: nat): (r: seq<bool>) { seq(n, _ => false) }

  function Xor8(a: u8, b: u8): (r: u8) { seq(8, z requires 0 <= z < 8 => a[z] != b[z]) }

  function Xor(a: u64, b: u64): (r: u64) { seq(64, z requires 0 <= z < 64 => a[z] != b[z]) }

  function And(a: u64, b: u64): (r: u64) { seq(64, z requires 0 <= z < 64 => a[z] && b[z]) }

  function Or(a: u64, b: u64): (r: u64) { seq(64, z requires 0 <= z < 64 => a[z] || b[z]) }

  function Not(a: u64): (r: u64) { seq(64, z requires 0 <= z < 64 => !a[z]) }

  function Shl(a: u64, n: nat): (r: u64)
    requires n <= 64
  {
    Zeros(n) + a[..64 - n]
  }

  function Shr(a: u64, n: nat): (r: u64)
    requires n <= 64
  {
    a[n..] + Zeros(n)
  }

  /** The macro ROL64: two shifts and an or. */
  function Rol64(a: u64, n: nat): (r: u64)
    requires 0 < n < 64
  {
    Or(Shl(a, n), Shr(a, 64 - n))
  }

  /** ROL64 is the rotation of FIPS 202: bit `z` of the result is bit `z - n` modulo 64. */
  lemma RolBit(a: u64, n: nat, z: nat)
    requires 0 < n < 64 && z < 64
    ensures Rol64(a, n)[z] == a[(z - n) % 64]
  {
    assert Shl(a, n)[z] == if z < n then false else a[z - n];
    assert Shr(a, 64 - n)[z] == if z < n then a[64 - n + z] else false;
  }

  /** The number whose low bits are `b`. */
  function ValueOf(b: seq<bool>): (r: nat) {
    if b == [] then 0 else (if b[0] then 1 else 0) + 2 * ValueOf(b[1..])
  }

  function Pow2(k: nat): (r: nat) { if k == 0 then 1 else 2 * Pow2(k - 1) }

  lemma {:induction false} ValueOfBits(n: nat, len: nat)
    requires n < Pow2(len)
    ensures ValueOf(BitsOf(n, len)) == n
  {
    if len > 0 {
      BitsOfCons(n, len);
      ValueOfBits(n / 2, len - 1);
    }
  }
}
