/** The server's byte-order readers: the portable shift-and-or macros, the x86-64 forms made of wide
    loads and a byte swap, and the number both are meant to read. */
module ByteOrder {

  type UChar = b: int | 0 <= b < 256

  function At(a: seq<UChar>, i: nat): (b: int)
    requires i < |a|
    ensures 0 <= b < 256
  {
    a[i]
  }

  // ---------- C integer operations ----------

  function Pow2(k: nat): (p: int)
    ensures p > 0
  {
    if k == 0 then 1 else 2 * Pow2(k - 1)
  }

  function Pow256(n: nat): (p: int)
    ensures p > 0
  {
    if n == 0 then 1 else 256 * Pow256(n - 1)
  }

  const TWO16 := 0x1_0000
  const TWO32 := 0x1_0000_0000
  const TWO64 := 0x1_0000_0000_0000_0000

  /** Bitwise or of two unsigned values. */
  function Or(x: nat, y: nat): nat
    decreases x + y
  {
    if x == 0 then y
    else if y == 0 then x
    else 2 * Or(x / 2, y / 2) + (if x % 2 == 1 || y % 2 == 1 then 1 else 0)
  }

  function Shl32(x: int, k: nat): (r: nat) {
    x * Pow2(k) % TWO32
  }

  function Shl64(x: int, k: nat): (r: nat) {
    x * Pow2(k) % TWO64
  }

  /** An unsigned value reinterpreted as a two's complement one of the same width. */
  function AsSigned(x: nat, two: int): int {
    if 2 * x >= two then x - two else x
  }

  // ---------- What the bytes mean ----------

  /** Low byte first: also what a load of `n` bytes yields on x86-64. */
  function LittleEndian(a: seq<UChar>, at: nat, n: nat): nat
    requires at + n <= |a|
    decreases n
  {
    if n == 0 then 0 else a[at] + 256 * LittleEndian(a, at + 1, n - 1)
  }

  /** High byte first. */
  function BigEndian(a: seq<UChar>, at: nat, n: nat): nat
    requires at + n <= |a|
  {
    if n == 0 then 0 else 256 * BigEndian(a, at, n - 1) + a[at + n - 1]
  }

  /** The low `n` bytes of a value, low byte first; a negative value in two's complement. */
  function Bytes(v: int, n: nat): (bs: seq<UChar>)
    ensures |bs| == n
    decreases n
  {
    if n == 0 then [] else [v % 256] + Bytes(v / 256, n - 1)
  }

  // ---------- Or as addition ----------

  lemma OrZero(x: nat)
    ensures Or(x, 0) == x && Or(0, x) == x
  {
  }

  /** Or with an even value, one bit at a time. */
  lemma OrEven(low: nat, y: nat)
    requires low > 0 && y > 0
    ensures Or(low, 2 * y) == 2 * Or(low / 2, y) + low % 2
  {
  }

  /** Or of a value below 2^k with a multiple of 2^k is their sum. */
  lemma {:induction false} OrIsSum(low: nat, m: nat, k: nat)
    requires low < Pow2(k)
    ensures m * Pow2(k) >= 0
    ensures Or(low, m * Pow2(k)) == low + m * Pow2(k)
  {
    if low > 0 && m > 0 {
      var y := m * Pow2(k - 1);
      assert m * Pow2(k) == 2 * y;
      OrIsSum(low / 2, m, k - 1);
      OrEven(low, y);
    } else if m > 0 {
      OrZero(m * Pow2(k));
    }
  }

  lemma Pow2By8(k: nat)
    ensures Pow2(k + 8) == 256 * Pow2(k)
  {
    assert Pow2(k + 2) == 4 * Pow2(k);
    assert Pow2(k + 4) == 4 * Pow2(k + 2);
    assert Pow2(k + 6) == 4 * Pow2(k + 4);
    assert Pow2(k + 8) == 4 * Pow2(k + 6);
  }

  lemma Powers()
    ensures Pow2(8) == 0x100 && Pow2(16) == 0x1_0000 && Pow2(24) == 0x100_0000 && Pow2(32) == TWO32
    ensures Pow2(40) == 0x100_0000_0000 && Pow2(48) == 0x1_0000_0000_0000 && Pow2(56) == 0x100_0000_0000_0000
  {
  }

  lemma SmallMod(x: int, d: int)
    requires 0 <= x < d
    ensures x % d == x
  {
  }

  /** Shifting a byte into place and or-ing it above `low` adds it there. */
  lemma OrByte32(low: nat, b: UChar, k: nat, p: int)
    requires p == Pow2(k) && 256 * p <= TWO32 && low < p
    ensures b * p >= 0 && Shl32(b, k) == b * p && Or(low, Shl32(b, k)) == low + b * p
  {
    MulBound(b, p);
    SmallMod(b * p, TWO32);
    OrIsSum(low, b, k);
  }

  lemma MulBound(b: UChar, p: int)
    requires p > 0
    ensures 0 <= b * p < 256 * p
  {
  }

  lemma OrWord64(low: nat, x: nat, k: nat)
    requires low < Pow2(k) && x * Pow2(k) < TWO64
    ensures Shl64(x, k) == x * Pow2(k) && Or(low, Shl64(x, k)) == low + x * Pow2(k)
  {
    OrIsSum(low, x, k);
    SmallMod(x * Pow2(k), TWO64);
  }

  // ---------- Portable readers, low byte first ----------

  function Uint2(a: seq<UChar>): nat
    requires |a| >= 2
  {
    Or(a[0], Shl32(a[1], 8)) % TWO16
  }

  function Uint3(a: seq<UChar>): nat
    requires |a| >= 3
  {
    Or(Or(a[0], Shl32(a[1], 8)), Shl32(a[2], 16)) % TWO32
  }

  function Uint4(a: seq<UChar>): nat
    requires |a| >= 4
  {
    Or(Or(Or(a[0], Shl32(a[1], 8)), Shl32(a[2], 16)), Shl32(a[3], 24)) % TWO32
  }

  function Uint5(a: seq<UChar>): nat
    requires |a| >= 5
  {
    Or(Uint4(a), Shl64(a[4], 32))
  }

  function Uint6(a: seq<UChar>): nat
    requires |a| >= 6
  {
    Or(Or(Uint4(a), Shl64(a[4], 32)), Shl64(a[5], 40))
  }

  function Uint8(a: seq<UChar>): nat
    requires |a| >= 8
  {
    Or(Uint4(a), Shl64(Uint4(a[4..]), 32))
  }

  /** The high byte is read without a cast, so it is negative where plain `char` is signed. */
  function Sint2(a: seq<UChar>, charIsSigned: bool): int
    requires |a| >= 2
  {
    var high := if charIsSigned then AsSigned(a[1], 256) else a[1];
    AsSigned(Or(a[0], Shl32(high, 8)) % TWO16, TWO16)
  }

  /** The same text in both headers: sign extension by or-ing 255 into the top byte. */
  function Sint3(a: seq<UChar>): int
    requires |a| >= 3
  {
    AsSigned(
      if a[2] >= 128
      then Or(Or(Or(Shl32(255, 24), Shl32(a[2], 16)), Shl32(a[1], 8)), a[0])
      else Or(Or(Shl32(a[2], 16), Shl32(a[1], 8)), a[0]),
      TWO32)
  }

  function Sint4(a: seq<UChar>): int
    requires |a| >= 4
  {
    AsSigned(Uint4(a), TWO32)
  }

  function Sint8(a: seq<UChar>): int
    requires |a| >= 8
  {
    AsSigned(Uint8(a), TWO64)
  }

  // ---------- x86-64 readers ----------

  function FastUint5(a: seq<UChar>): nat
    requires |a| >= 5
  {
    Or(LittleEndian(a, 0, 4), Shl64(a[4], 32))
  }

  function FastUint6(a: seq<UChar>): nat
    requires |a| >= 6
  {
    Or(LittleEndian(a, 0, 4), Shl64(LittleEndian(a, 4, 2), 32))
  }

  /** `bswapq`: the eight bytes of a word in reverse. */
  function ByteSwap(v: nat): nat {
    BigEndian(Bytes(v, 8), 0, 8)
  }

  function FastMiUint5(a: seq<UChar>): nat
    requires |a| >= 5
  {
    ByteSwap(Shl64(FastUint5(a), 24))
  }

  function FastMiUint6(a: seq<UChar>): nat
    requires |a| >= 6
  {
    ByteSwap(Shl64(FastUint6(a), 16))
  }

  function FastMiUint7(a: seq<UChar>): nat
    requires |a| >= 7
  {
    ByteSwap(Shl64(Or(FastUint6(a), Shl64(a[6], 48)), 8))
  }

  function FastMiUint8(a: seq<UChar>): nat
    requires |a| >= 8
  {
    ByteSwap(LittleEndian(a, 0, 8))
  }

  // ---------- Portable readers, high byte first ----------

  function MiUint2(a: seq<UChar>): nat
    requires |a| >= 2
  {
    Or(a[1], Shl32(a[0], 8)) % TWO16
  }

  function MiUint3(a: seq<UChar>): nat
    requires |a| >= 3
  {
    Or(Or(a[2], Shl32(a[1], 8)), Shl32(a[0], 16)) % TWO32
  }

  function MiUint4(a: seq<UChar>): nat
    requires |a| >= 4
  {
    Or(Or(Or(a[3], Shl32(a[2], 8)), Shl32(a[1], 16)), Shl32(a[0], 24)) % TWO32
  }

  function MiUint5(a: seq<UChar>): nat
    requires |a| >= 5
  {
    Or(MiUint4(a[1..]), Shl64(a[0], 32))
  }

  // ---------- The portable readers read the number ----------

  lemma TwoBytes(b0: UChar, b1: UChar)
    ensures Or(b0, Shl32(b1, 8)) == b0 + 0x100 * b1
  {
    Powers();
    OrByte32(b0, b1, 8, 0x100);
  }

  lemma ThirdByte(low: nat, b: UChar)
    requires low < 0x1_0000
    ensures Or(low, Shl32(b, 16)) == low + 0x1_0000 * b
  {
    Powers();
    OrByte32(low, b, 16, 0x1_0000);
  }

  lemma FourthByte(low: nat, b: UChar)
    requires low < 0x100_0000
    ensures Or(low, Shl32(b, 24)) == low + 0x100_0000 * b
  {
    Powers();
    OrByte32(low, b, 24, 0x100_0000);
  }

  /** Four bytes or-ed into place, lowest first. */
  lemma FourBytes(b0: UChar, b1: UChar, b2: UChar, b3: UChar)
    ensures Or(b0, Shl32(b1, 8)) == b0 + 0x100 * b1
    ensures Or(Or(b0, Shl32(b1, 8)), Shl32(b2, 16)) == b0 + 0x100 * b1 + 0x1_0000 * b2
    ensures Or(Or(Or(b0, Shl32(b1, 8)), Shl32(b2, 16)), Shl32(b3, 24))
            == b0 + 0x100 * b1 + 0x1_0000 * b2 + 0x100_0000 * b3
  {
    TwoBytes(b0, b1);
    ThirdByte(b0 + 0x100 * b1, b2);
    FourthByte(b0 + 0x100 * b1 + 0x1_0000 * b2, b3);
  }

  lemma ShortReads(a: seq<UChar>, at: nat)
    ensures at + 1 <= |a| ==> LittleEndian(a, at, 1) == At(a, at)
    ensures at + 2 <= |a| ==> LittleEndian(a, at, 2) == At(a, at) + 0x100 * At(a, at + 1)
    ensures at + 3 <= |a| ==>
              LittleEndian(a, at, 3) == At(a, at) + 0x100 * At(a, at + 1) + 0x1_0000 * At(a, at + 2)
    ensures at + 4 <= |a| ==>
              LittleEndian(a, at, 4)
              == At(a, at) + 0x100 * At(a, at + 1) + 0x1_0000 * At(a, at + 2) + 0x100_0000 * At(a, at + 3)
  {
  }

  /** A read of `n + m` bytes is a read of `n` and, above it, a read of `m`. */
  lemma {:induction false} LittleEndianSplit(a: seq<UChar>, at: nat, n: nat, m: nat)
    requires at + n + m <= |a|
    ensures LittleEndian(a, at, n + m) == LittleEndian(a, at, n) + Pow256(n) * LittleEndian(a, at + n, m)
    decreases n
  {
    if n > 0 {
      LittleEndianSplit(a, at + 1, n - 1, m);
      NextPower(n, LittleEndian(a, at + n, m));
    }
  }

  lemma NextPower(n: nat, x: int)
    requires n > 0
    ensures Pow256(n) * x == 256 * (Pow256(n - 1) * x)
  {
  }

  lemma {:induction false} LittleEndianBound(a: seq<UChar>, at: nat, n: nat)
    requires at + n <= |a|
    ensures LittleEndian(a, at, n) < Pow256(n)
    decreases n
  {
    if n > 0 {
      LittleEndianBound(a, at + 1, n - 1);
    }
  }
}
