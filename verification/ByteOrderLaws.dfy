/** Every optimised reader agrees with the portable one, for all byte contents. */
module ByteOrderLaws {
  import opened ByteOrder

  lemma {:induction false} PowersAgree(n: nat)
    ensures Pow2(8 * n) == Pow256(n)
  {
    if n > 0 {
      PowersAgree(n - 1);
      Pow2By8(8 * (n - 1));
    }
  }

  lemma WordPowers()
    ensures Pow256(1) == 0x100 && Pow256(2) == TWO16 && Pow256(3) == 0x100_0000 && Pow256(4) == TWO32
    ensures Pow256(5) == 0x100_0000_0000 && Pow256(6) == 0x1_0000_0000_0000 && Pow256(7) == 0x100_0000_0000_0000
    ensures Pow256(8) == TWO64
  {
  }

  lemma {:induction false} OrCommutes(x: nat, y: nat)
    ensures Or(x, y) == Or(y, x)
    decreases x + y
  {
    if x != 0 && y != 0 {
      OrCommutes(x / 2, y / 2);
    }
  }

  /** Or with the higher part written first. */
  lemma OrHighFirst(m: nat, low: nat, k: nat)
    requires low < Pow2(k)
    ensures m * Pow2(k) >= 0 && Or(m * Pow2(k), low) == m * Pow2(k) + low
  {
    OrIsSum(low, m, k);
    OrCommutes(low, m * Pow2(k));
  }

  // ---------- Low byte first ----------

  lemma Readers2Agree(a: seq<UChar>)
    requires |a| >= 2
    ensures Uint2(a) == LittleEndian(a, 0, 2)
  {
    ShortReads(a, 0);
    FourBytes(a[0], a[1], 0, 0);
    SmallMod(At(a, 0) + 0x100 * At(a, 1), TWO16);
  }

  /** Two signed bytes, whichever way plain `char` reads the high one. */
  lemma SignedReader2Agrees(a: seq<UChar>, charIsSigned: bool)
    requires |a| >= 2
    ensures Sint2(a, charIsSigned) == AsSigned(LittleEndian(a, 0, 2), TWO16)
  {
    ShortReads(a, 0);
    if charIsSigned && a[1] >= 128 {
      NegativeHighByte(a[0], a[1]);
    } else {
      Readers2Agree(a);
    }
  }

  lemma NegativeHighByte(b0: UChar, b1: UChar)
    ensures Or(b0, Shl32(b1 - 256, 8)) % TWO16 == b0 + 0x100 * b1
  {
    Powers();
    var m := 0xFF_FF00 + b1;
    ModOf((b1 - 256) * 256, TWO32, -1, m * 256);
    OrIsSum(b0, m, 8);
    ModOf(b0 + m * 256, TWO16, 0xFFFF, b0 + 0x100 * b1);
  }

  lemma MulAtLeast(n: int, d: int)
    requires d > 0
    ensures n >= 1 ==> n * d >= d
    ensures n <= -1 ==> n * d <= -d
  {
  }

  /** Quotient and remainder are unique. */
  lemma ModOf(x: int, d: int, q: int, r: int)
    requires 0 <= r < d && x == q * d + r
    ensures x % d == r && x / d == q
  {
    var n := x / d - q;
    assert x == x / d * d + x % d;
    assert n * d == x / d * d - q * d;
    MulAtLeast(n, d);
  }

  lemma Readers3Agree(a: seq<UChar>)
    requires |a| >= 3
    ensures Uint3(a) == LittleEndian(a, 0, 3)
  {
    ShortReads(a, 0);
    FourBytes(a[0], a[1], a[2], 0);
    SmallMod(At(a, 0) + 0x100 * At(a, 1) + 0x1_0000 * At(a, 2), TWO32);
  }

  /** Three signed bytes: the sign extension from 24 to 32 bits is right. */
  lemma SignedReader3Agrees(a: seq<UChar>)
    requires |a| >= 3
    ensures Sint3(a) == AsSigned(LittleEndian(a, 0, 3), 0x100_0000)
  {
    ShortReads(a, 0);
    if a[2] >= 128 {
      SignExtended(a[0], a[1], a[2]);
    } else {
      NotExtended(a[0], a[1], a[2]);
    }
  }

  lemma NotExtended(b0: UChar, b1: UChar, b2: UChar)
    ensures Or(Or(Shl32(b2, 16), Shl32(b1, 8)), b0) == 0x1_0000 * b2 + 0x100 * b1 + b0
  {
    ShiftedBytes(b1, b2);
    OrTwo(Shl32(b2, 16), Shl32(b1, 8), b0, b2, b1);
  }

  lemma SignExtended(b0: UChar, b1: UChar, b2: UChar)
    ensures Or(Or(Or(Shl32(255, 24), Shl32(b2, 16)), Shl32(b1, 8)), b0)
            == 0xFF00_0000 + 0x1_0000 * b2 + 0x100 * b1 + b0
  {
    ShiftedBytes(b1, b2);
    ExtendedHigh(Shl32(255, 24), Shl32(b2, 16), b2);
    OrTwo(Or(Shl32(255, 24), Shl32(b2, 16)), Shl32(b1, 8), b0, 0xFF00 + b2, b1);
  }

  lemma ExtendedHigh(x: nat, y: nat, b2: UChar)
    requires x == 0xFF00_0000 && y == 0x1_0000 * b2
    ensures Or(x, y) == 0x1_0000 * (0xFF00 + b2)
  {
    OrDown(255, y, 24, 0x100_0000);
  }

  /** Two lower bytes or-ed below a value. */
  lemma OrTwo(x: nat, y: nat, b0: UChar, m: nat, b1: UChar)
    requires x == 0x1_0000 * m && y == 0x100 * b1
    ensures Or(Or(x, y), b0) == 0x1_0000 * m + 0x100 * b1 + b0
  {
    OrDown(m, y, 16, 0x1_0000);
    OrDown(0x100 * m + b1, b0, 8, 0x100);
  }

  lemma ShiftedBytes(b1: UChar, b2: UChar)
    ensures Shl32(b1, 8) == 0x100 * b1 && Shl32(b2, 16) == 0x1_0000 * b2 && Shl32(255, 24) == 0xFF00_0000
  {
  }

  lemma OrDown(m: nat, low: nat, k: nat, p: int)
    requires (k == 8 && p == 0x100) || (k == 16 && p == 0x1_0000) || (k == 24 && p == 0x100_0000)
    requires low < p
    ensures m * p >= 0 && Or(m * p, low) == m * p + low
  {
    Powers();
    OrHighFirst(m, low, k);
  }

  lemma Readers4Agree(a: seq<UChar>)
    requires |a| >= 4
    ensures Uint4(a) == LittleEndian(a, 0, 4)
    ensures Sint4(a) == AsSigned(LittleEndian(a, 0, 4), TWO32)
  {
    ShortReads(a, 0);
    FourBytes(a[0], a[1], a[2], a[3]);
    SmallMod(At(a, 0) + 0x100 * At(a, 1) + 0x1_0000 * At(a, 2) + 0x100_0000 * At(a, 3), TWO32);
  }

  /** A 32-bit load with up to four more bytes or-ed above it. */
  lemma OrAboveWord(low: nat, high: nat)
    requires low < TWO32 && high < TWO32
    ensures Or(low, Shl64(high, 32)) == low + TWO32 * high
  {
    Powers();
    assert high * Pow2(32) == TWO32 * high;
    OrWord64(low, high, 32);
  }

  lemma Readers5Agree(a: seq<UChar>)
    requires |a| >= 5
    ensures Uint5(a) == FastUint5(a) == LittleEndian(a, 0, 5)
  {
    Readers4Agree(a);
    LittleEndianBound(a, 0, 4);
    WordPowers();
    OrAboveWord(LittleEndian(a, 0, 4), a[4]);
    ShortReads(a, 4);
    LittleEndianSplit(a, 0, 4, 1);
  }

  lemma Readers6Agree(a: seq<UChar>)
    requires |a| >= 6
    ensures Uint6(a) == FastUint6(a) == LittleEndian(a, 0, 6)
  {
    Readers5Agree(a);
    LittleEndianBound(a, 0, 4);
    LittleEndianBound(a, 0, 5);
    LittleEndianBound(a, 4, 2);
    WordPowers();
    Powers();
    OrWord64(LittleEndian(a, 0, 5), a[5], 40);
    OrAboveWord(LittleEndian(a, 0, 4), LittleEndian(a, 4, 2));
    ShortReads(a, 5);
    LittleEndianSplit(a, 0, 5, 1);
    LittleEndianSplit(a, 0, 4, 2);
  }

  lemma {:induction false} LittleEndianTail(a: seq<UChar>, at: nat, n: nat, skip: nat)
    requires skip + at + n <= |a|
    ensures LittleEndian(a[skip..], at, n) == LittleEndian(a, skip + at, n)
    decreases n
  {
    if n > 0 {
      LittleEndianTail(a, at + 1, n - 1, skip);
    }
  }

  lemma Readers8Agree(a: seq<UChar>)
    requires |a| >= 8
    ensures Uint8(a) == LittleEndian(a, 0, 8)
    ensures Sint8(a) == AsSigned(LittleEndian(a, 0, 8), TWO64)
  {
    Readers4Agree(a);
    Readers4Agree(a[4..]);
    LittleEndianTail(a, 0, 4, 4);
    LittleEndianBound(a, 0, 4);
    LittleEndianBound(a, 4, 4);
    WordPowers();
    OrAboveWord(LittleEndian(a, 0, 4), LittleEndian(a, 4, 4));
    LittleEndianSplit(a, 0, 4, 4);
  }

  // ---------- High byte first: load, shift, swap ----------

  /** Taking a read apart gives back the bytes read. */
  lemma {:induction false} BytesOfRead(a: seq<UChar>, at: nat, n: nat)
    requires at + n <= |a|
    ensures Bytes(LittleEndian(a, at, n), n) == a[at..at + n]
    decreases n
  {
    if n > 0 {
      BytesOfRead(a, at + 1, n - 1);
      var rest := LittleEndian(a, at + 1, n - 1);
      assert (a[at] + 256 * rest) % 256 == a[at] && (a[at] + 256 * rest) / 256 == rest;
      assert a[at..at + n] == [a[at]] + a[at + 1..at + n];
    }
  }

  function Zeros(n: nat): seq<UChar> {
    seq(n, i => 0)
  }

  /** A left shift by whole bytes puts zero bytes below. */
  lemma {:induction false} BytesOfShift(v: nat, shift: nat, n: nat)
    ensures v * Pow256(shift) >= 0
    ensures Bytes(v * Pow256(shift), shift + n) == Zeros(shift) + Bytes(v, n)
  {
    if shift == 0 {
      assert Zeros(0) + Bytes(v, n) == Bytes(v, n);
    } else {
      var w := v * Pow256(shift - 1);
      assert v * Pow256(shift) == 256 * w;
      BytesOfShift(v, shift - 1, n);
      assert Bytes(256 * w, shift + n) == [0] + Bytes(w, shift - 1 + n);
      assert Zeros(shift) == [0] + Zeros(shift - 1);
    }
  }

  lemma {:induction false} BigEndianAfterZeros(zeros: nat, s: seq<UChar>, n: nat)
    requires n <= |s|
    ensures BigEndian(Zeros(zeros) + s, 0, zeros + n) == BigEndian(s, 0, n)
  {
    if n > 0 {
      BigEndianAfterZeros(zeros, s, n - 1);
      assert (Zeros(zeros) + s)[zeros + n - 1] == s[n - 1];
    } else if zeros > 0 {
      BigEndianAfterZeros(zeros - 1, s, 0);
      BigEndianPrefix(Zeros(zeros) + s, Zeros(zeros - 1) + s, zeros - 1);
    }
  }

  lemma {:induction false} BigEndianPrefix(s: seq<UChar>, t: seq<UChar>, n: nat)
    requires n <= |s| && n <= |t| && forall i | 0 <= i < n :: s[i] == t[i]
    ensures BigEndian(s, 0, n) == BigEndian(t, 0, n)
  {
    if n > 0 {
      BigEndianPrefix(s, t, n - 1);
    }
  }

  /** Load `n` bytes low byte first, shift them to the top of a word, swap the word: that reads them high
      byte first, for every `n` and every word size. */
  lemma ShiftedReadReversed(a: seq<UChar>, n: nat, shift: nat)
    requires n <= |a|
    ensures LittleEndian(a, 0, n) * Pow256(shift) >= 0
    ensures BigEndian(Bytes(LittleEndian(a, 0, n) * Pow256(shift), shift + n), 0, shift + n) == BigEndian(a, 0, n)
  {
    BytesOfShift(LittleEndian(a, 0, n), shift, n);
    BytesOfRead(a, 0, n);
    BigEndianAfterZeros(shift, a[..n], n);
    BigEndianPrefix(a[..n], a, n);
  }

  lemma LoadShiftSwap(a: seq<UChar>, n: nat)
    requires n <= 8 && n <= |a|
    ensures LittleEndian(a, 0, n) * Pow256(8 - n) >= 0
    ensures ByteSwap(LittleEndian(a, 0, n) * Pow256(8 - n)) == BigEndian(a, 0, n)
  {
    ShiftedReadReversed(a, n, 8 - n);
  }

  /** The shift of an `n`-byte value by the remaining bytes does not overflow the word. */
  lemma ShiftFits(a: seq<UChar>, n: nat)
    requires n <= 8 && n <= |a|
    ensures Shl64(LittleEndian(a, 0, n), 8 * (8 - n)) == LittleEndian(a, 0, n) * Pow256(8 - n)
  {
    var v, p, q := LittleEndian(a, 0, n), Pow256(n), Pow256(8 - n);
    LittleEndianBound(a, 0, n);
    PowersAgree(8 - n);
    PowersMultiply(n, 8 - n);
    WordPowers();
    ProductBelow(v, p, q);
    SmallMod(v * q, TWO64);
  }

  lemma ProductBelow(v: nat, p: nat, q: nat)
    requires v < p && q > 0
    ensures 0 <= v * q < p * q
  {
  }

  lemma {:induction false} PowersMultiply(n: nat, m: nat)
    ensures Pow256(n) * Pow256(m) == Pow256(n + m)
  {
    if n > 0 {
      PowersMultiply(n - 1, m);
      assert 256 * (Pow256(n - 1) * Pow256(m)) == Pow256(n) * Pow256(m);
    }
  }

  lemma SwapReader5(a: seq<UChar>)
    requires |a| >= 5
    ensures FastMiUint5(a) == BigEndian(a, 0, 5)
  {
    Readers5Agree(a);
    ShiftFits(a, 5);
    LoadShiftSwap(a, 5);
  }

  lemma SwapReader6(a: seq<UChar>)
    requires |a| >= 6
    ensures FastMiUint6(a) == BigEndian(a, 0, 6)
  {
    Readers6Agree(a);
    ShiftFits(a, 6);
    LoadShiftSwap(a, 6);
  }

  lemma SwapReader7(a: seq<UChar>)
    requires |a| >= 7
    ensures FastMiUint7(a) == BigEndian(a, 0, 7)
  {
    SevenBytes(a);
    ShiftFits(a, 7);
    LoadShiftSwap(a, 7);
  }

  lemma SwapReader8(a: seq<UChar>)
    requires |a| >= 8
    ensures FastMiUint8(a) == BigEndian(a, 0, 8)
  {
    LoadShiftSwap(a, 8);
  }

  lemma SevenBytes(a: seq<UChar>)
    requires |a| >= 7
    ensures Or(FastUint6(a), Shl64(a[6], 48)) == LittleEndian(a, 0, 7)
  {
    Readers6Agree(a);
    LittleEndianBound(a, 0, 6);
    WordPowers();
    Powers();
    OrWord64(LittleEndian(a, 0, 6), a[6], 48);
    ShortReads(a, 6);
    LittleEndianSplit(a, 0, 6, 1);
  }

  // ---------- High byte first: portable ----------

  lemma ShortBigReads(a: seq<UChar>)
    ensures |a| >= 2 ==> BigEndian(a, 0, 2) == 0x100 * At(a, 0) + At(a, 1)
    ensures |a| >= 3 ==> BigEndian(a, 0, 3) == 0x1_0000 * At(a, 0) + 0x100 * At(a, 1) + At(a, 2)
    ensures |a| >= 4 ==>
              BigEndian(a, 0, 4) == 0x100_0000 * At(a, 0) + 0x1_0000 * At(a, 1) + 0x100 * At(a, 2) + At(a, 3)
    ensures |a| >= 5 ==>
              BigEndian(a, 0, 5)
              == TWO32 * At(a, 0) + 0x100_0000 * At(a, 1) + 0x1_0000 * At(a, 2) + 0x100 * At(a, 3) + At(a, 4)
  {
    if |a| >= 1 {
      assert BigEndian(a, 0, 1) == At(a, 0);
    }
    if |a| >= 3 {
      assert BigEndian(a, 0, 3) == 256 * BigEndian(a, 0, 2) + At(a, 2);
    }
    if |a| >= 5 {
      assert BigEndian(a, 0, 5) == 256 * BigEndian(a, 0, 4) + At(a, 4);
    }
  }

  lemma BigReader2Agrees(a: seq<UChar>)
    requires |a| >= 2
    ensures MiUint2(a) == BigEndian(a, 0, 2)
  {
    ShortBigReads(a);
    FourBytes(a[1], a[0], 0, 0);
    SmallMod(At(a, 1) + 0x100 * At(a, 0), TWO16);
  }

  lemma BigReader3Agrees(a: seq<UChar>)
    requires |a| >= 3
    ensures MiUint3(a) == BigEndian(a, 0, 3)
  {
    ShortBigReads(a);
    FourBytes(a[2], a[1], a[0], 0);
    SmallMod(At(a, 2) + 0x100 * At(a, 1) + 0x1_0000 * At(a, 0), TWO32);
  }

  lemma BigReader4Agrees(a: seq<UChar>)
    requires |a| >= 4
    ensures MiUint4(a) == BigEndian(a, 0, 4)
  {
    ShortBigReads(a);
    FourBytes(a[3], a[2], a[1], a[0]);
    SmallMod(At(a, 3) + 0x100 * At(a, 2) + 0x1_0000 * At(a, 1) + 0x100_0000 * At(a, 0), TWO32);
  }

  /** The five-byte reader against its load/shift/swap form. */
  lemma BigReaders5Agree(a: seq<UChar>)
    requires |a| >= 5
    ensures MiUint5(a) == BigEndian(a, 0, 5) == FastMiUint5(a)
  {
    SwapReader5(a);
    BigReader4Agrees(a[1..]);
    ShortBigReads(a);
    ShortBigReads(a[1..]);
    OrAboveWord(MiUint4(a[1..]), a[0]);
  }
}
