/** Storing numbers low byte first: the portable byte-by-byte macros and the wide x86-64 stores write the
    same bytes, and reading them back gives the stored value. */
module ByteStores {
  import opened ByteOrder
  import opened ByteOrderLaws

  /** A buffer with `bytes` placed at `at` and everything else as it was. */
  function Written(buffer: seq<UChar>, at: nat, bytes: seq<UChar>): (r: seq<UChar>)
    requires at + |bytes| <= |buffer|
    ensures |r| == |buffer|
    ensures forall i | 0 <= i < |buffer| && !(at <= i < at + |bytes|) :: r[i] == buffer[i]
    ensures forall i | 0 <= i < |bytes| :: r[at + i] == bytes[i]
  {
    buffer[..at] + bytes + buffer[at + |bytes|..]
  }

  // ---------- Taking values apart ----------

  /** Dividing off one byte commutes with reducing modulo a power. */
  lemma ModSplit(v: int, p: int)
    requires p > 0
    ensures v % (256 * p) == v % 256 + 256 * (v / 256 % p)
    ensures v / (256 * p) == v / 256 / p
  {
    var w := v / 256;
    var q, r := w / p, w % p;
    assert q * (256 * p) == 256 * (q * p);
    ModOf(v, 256 * p, q, v % 256 + 256 * r);
  }

  lemma {:induction false} BytesOfMod(v: int, n: nat)
    ensures Bytes(v % Pow256(n), n) == Bytes(v, n)
    decreases n
  {
    if n > 0 {
      var p := Pow256(n - 1);
      ModSplit(v, p);
      BytesOfMod(v / 256, n - 1);
      ModOf(v % (256 * p), 256, v / 256 % p, v % 256);
    }
  }

  lemma {:induction false} BytesSplit(v: int, n: nat, m: nat)
    ensures Bytes(v, n + m) == Bytes(v, n) + Bytes(v / Pow256(n), m)
    decreases n
  {
    if n == 0 {
      assert Bytes(v, 0) + Bytes(v, m) == Bytes(v, m);
    } else {
      BytesSplit(v / 256, n - 1, m);
      ModSplit(v, Pow256(n - 1));
    }
  }

  /** Putting the low `n` bytes together again gives the value modulo 256^n. */
  lemma {:induction false} ReadOfBytes(v: int, n: nat)
    ensures LittleEndian(Bytes(v, n), 0, n) == v % Pow256(n)
    decreases n
  {
    if n > 0 {
      LittleEndianTail(Bytes(v, n), 0, n - 1, 1);
      assert Bytes(v, n)[1..] == Bytes(v / 256, n - 1);
      ReadOfBytes(v / 256, n - 1);
      ModSplit(v, Pow256(n - 1));
    }
  }

  // ---------- Store, then read ----------

  lemma {:induction false} ReadsOnlyItsBytes(a: seq<UChar>, b: seq<UChar>, at: nat, n: nat)
    requires at + n <= |a| && at + n <= |b| && forall i | at <= i < at + n :: a[i] == b[i]
    ensures LittleEndian(a, at, n) == LittleEndian(b, at, n)
    decreases n
  {
    if n > 0 {
      ReadsOnlyItsBytes(a, b, at + 1, n - 1);
    }
  }

  lemma ReadOfWritten(buffer: seq<UChar>, at: nat, v: int, n: nat)
    requires at + n <= |buffer|
    ensures LittleEndian(Written(buffer, at, Bytes(v, n))[at..], 0, n) == v % Pow256(n)
  {
    ReadOfBytes(v, n);
    ReadsOnlyItsBytes(Written(buffer, at, Bytes(v, n))[at..], Bytes(v, n), 0, n);
  }

  predicate UnsignedWidth(n: nat) {
    n == 2 || n == 3 || n == 4 || n == 5 || n == 6 || n == 8
  }

  predicate SignedWidth(n: nat) {
    n == 2 || n == 3 || n == 4 || n == 8
  }

  /** The portable reader of a given width. */
  function PortableUnsigned(a: seq<UChar>, n: nat): nat
    requires UnsignedWidth(n) && n <= |a|
  {
    if n == 2 then Uint2(a) else if n == 3 then Uint3(a) else if n == 4 then Uint4(a)
    else if n == 5 then Uint5(a) else if n == 6 then Uint6(a) else Uint8(a)
  }

  /** The x86-64 one; the three-byte macro has the portable text. */
  function FastUnsigned(a: seq<UChar>, n: nat): nat
    requires UnsignedWidth(n) && n <= |a|
  {
    if n == 3 then Uint3(a) else if n == 5 then FastUint5(a) else if n == 6 then FastUint6(a) else LittleEndian(a, 0, n)
  }

  function PortableSigned(a: seq<UChar>, n: nat, charIsSigned: bool): int
    requires SignedWidth(n) && n <= |a|
  {
    if n == 2 then Sint2(a, charIsSigned) else if n == 3 then Sint3(a) else if n == 4 then Sint4(a) else Sint8(a)
  }

  function FastSigned(a: seq<UChar>, n: nat): int
    requires SignedWidth(n) && n <= |a|
  {
    if n == 3 then Sint3(a) else AsSigned(LittleEndian(a, 0, n), Pow256(n))
  }

  /** Every width, every content: portable and optimised readers return the little-endian number. */
  lemma UnsignedReadersAgree(a: seq<UChar>, n: nat)
    requires UnsignedWidth(n) && n <= |a|
    ensures PortableUnsigned(a, n) == FastUnsigned(a, n) == LittleEndian(a, 0, n)
  {
    if n == 2 {
      Readers2Agree(a);
    } else if n == 3 {
      Readers3Agree(a);
    } else if n == 4 {
      Readers4Agree(a);
    } else if n == 5 {
      Readers5Agree(a);
    } else if n == 6 {
      Readers6Agree(a);
    } else {
      Readers8Agree(a);
    }
  }

  lemma SignedReadersAgree(a: seq<UChar>, n: nat, charIsSigned: bool)
    requires SignedWidth(n) && n <= |a|
    ensures PortableSigned(a, n, charIsSigned) == FastSigned(a, n) == AsSigned(LittleEndian(a, 0, n), Pow256(n))
  {
    WordPowers();
    if n == 2 {
      SignedReader2Agrees(a, charIsSigned);
    } else if n == 3 {
      SignedReader3Agrees(a);
    } else if n == 4 {
      Readers4Agree(a);
    } else {
      Readers8Agree(a);
    }
  }

  /** Storing any value and reading it back unsigned gives it modulo 256^n. */
  lemma UnsignedRoundTrip(buffer: seq<UChar>, at: nat, v: int, n: nat)
    requires UnsignedWidth(n) && at + n <= |buffer|
    ensures PortableUnsigned(Written(buffer, at, Bytes(v, n))[at..], n) == v % Pow256(n)
    ensures FastUnsigned(Written(buffer, at, Bytes(v, n))[at..], n) == v % Pow256(n)
  {
    ReadOfWritten(buffer, at, v, n);
    UnsignedReadersAgree(Written(buffer, at, Bytes(v, n))[at..], n);
  }

  /** Storing a signed value that fits and reading it back signed gives it exactly. */
  lemma SignedRoundTrip(buffer: seq<UChar>, at: nat, v: int, n: nat, charIsSigned: bool)
    requires SignedWidth(n) && at + n <= |buffer| && -Pow256(n) <= 2 * v < Pow256(n)
    ensures PortableSigned(Written(buffer, at, Bytes(v, n))[at..], n, charIsSigned) == v
    ensures FastSigned(Written(buffer, at, Bytes(v, n))[at..], n) == v
  {
    ReadOfWritten(buffer, at, v, n);
    SignedMod(v, Pow256(n));
    SignedReadersAgree(Written(buffer, at, Bytes(v, n))[at..], n, charIsSigned);
  }

  /** Two's complement: wrapping a value that fits and reinterpreting it gives it back. */
  lemma SignedMod(v: int, two: int)
    requires two > 0 && -two <= 2 * v < two
    ensures AsSigned(v % two, two) == v
  {
    if v >= 0 {
      ModOf(v, two, 0, v);
    } else {
      ModOf(v, two, -1, v + two);
    }
  }

  // ---------- Portable stores ----------

  lemma FirstBytes(v: int)
    ensures Bytes(v, 2) == [v % 256, v / 0x100 % 256]
    ensures Bytes(v, 3) == [v % 256, v / 0x100 % 256, v / 0x1_0000 % 256]
    ensures Bytes(v, 4) == [v % 256, v / 0x100 % 256, v / 0x1_0000 % 256, v / 0x100_0000 % 256]
  {
  }

  /** A cast to a 32-bit unsigned value keeps the low bytes. */
  lemma CastKeepsBytes(v: int)
    ensures v % TWO32 % 256 == v % 256 && v % TWO32 / 0x100 % 256 == v / 0x100 % 256
  {
  }

  method Int2Store(t: array<UChar>, at: nat, v: int)
    requires at + 2 <= t.Length
    modifies t
    ensures t[..] == Written(old(t[..]), at, Bytes(v, 2))
    ensures forall i | 0 <= i < t.Length && !(at <= i < at + 2) :: t[i] == old(t[i])
  {
    var temp := v % TWO32;
    CastKeepsBytes(v);
    FirstBytes(v);
    t[at] := temp % 256;
    t[at + 1] := temp / 0x100 % 256;
  }

  method Int3Store(t: array<UChar>, at: nat, v: int)
    requires at + 3 <= t.Length
    modifies t
    ensures t[..] == Written(old(t[..]), at, Bytes(v, 3))
    ensures forall i | 0 <= i < t.Length && !(at <= i < at + 3) :: t[i] == old(t[i])
  {
    FirstBytes(v);
    t[at] := v % 256;
    t[at + 1] := v / 0x100 % 256;
    t[at + 2] := v / 0x1_0000 % 256;
  }

  method Int4Store(t: array<UChar>, at: nat, v: int)
    requires at + 4 <= t.Length
    modifies t
    ensures t[..] == Written(old(t[..]), at, Bytes(v, 4))
    ensures forall i | 0 <= i < t.Length && !(at <= i < at + 4) :: t[i] == old(t[i])
  {
    FirstBytes(v);
    t[at] := v % 256;
    t[at + 1] := v / 0x100 % 256;
    t[at + 2] := v / 0x1_0000 % 256;
    t[at + 3] := v / 0x100_0000 % 256;
  }

  /** Writing two pieces one after the other. */
  lemma WrittenTwice(buffer: seq<UChar>, at: nat, x: seq<UChar>, y: seq<UChar>)
    requires at + |x| + |y| <= |buffer|
    ensures Written(Written(buffer, at, x), at + |x|, y) == Written(buffer, at, x + y)
  {
  }

  lemma BytesAboveWord(v: int, m: nat)
    ensures Bytes(v, 4 + m) == Bytes(v, 4) + Bytes(v / TWO32, m)
  {
    WordPowers();
    BytesSplit(v, 4, m);
  }

  method Int5Store(t: array<UChar>, at: nat, v: int)
    requires at + 5 <= t.Length
    modifies t
    ensures t[..] == Written(old(t[..]), at, Bytes(v, 5))
    ensures forall i | 0 <= i < t.Length && !(at <= i < at + 5) :: t[i] == old(t[i])
  {
    Int4Store(t, at, v);
    ghost var mid := t[..];
    t[at + 4] := v / TWO32 % 256;
    BytesAboveWord(v, 1);
    assert Bytes(v / TWO32, 1) == [v / TWO32 % 256];
    assert t[..] == Written(mid, at + 4, Bytes(v / TWO32, 1));
    WrittenTwice(old(t[..]), at, Bytes(v, 4), Bytes(v / TWO32, 1));
  }

  method Int6Store(t: array<UChar>, at: nat, v: int)
    requires at + 6 <= t.Length
    modifies t
    ensures t[..] == Written(old(t[..]), at, Bytes(v, 6))
    ensures forall i | 0 <= i < t.Length && !(at <= i < at + 6) :: t[i] == old(t[i])
  {
    Int4Store(t, at, v);
    ghost var mid := t[..];
    t[at + 4] := v / TWO32 % 256;
    t[at + 5] := v / 0x100_0000_0000 % 256;
    BytesAboveWord(v, 2);
    FirstBytes(v / TWO32);
    assert v / TWO32 / 0x100 == v / 0x100_0000_0000;
    assert t[..] == Written(mid, at + 4, Bytes(v / TWO32, 2));
    WrittenTwice(old(t[..]), at, Bytes(v, 4), Bytes(v / TWO32, 2));
  }

  method Int8Store(t: array<UChar>, at: nat, v: int)
    requires at + 8 <= t.Length
    modifies t
    ensures t[..] == Written(old(t[..]), at, Bytes(v, 8))
    ensures forall i | 0 <= i < t.Length && !(at <= i < at + 8) :: t[i] == old(t[i])
  {
    var temp, temp2 := v % TWO32, v / TWO32 % TWO32;
    Int4Store(t, at, temp);
    Int4Store(t, at + 4, temp2);
    WordPowers();
    BytesOfMod(v, 4);
    BytesOfMod(v / TWO32, 4);
    BytesAboveWord(v, 4);
    WrittenTwice(old(t[..]), at, Bytes(v, 4), Bytes(v / TWO32, 4));
  }

  // ---------- x86-64 stores ----------

  /** What the processor does for a store of an `n`-byte word: low byte at the lowest address. */
  method StoreWord(t: array<UChar>, at: nat, word: nat, n: nat)
    requires at + n <= t.Length
    modifies t
    ensures t[..] == Written(old(t[..]), at, Bytes(word, n))
    ensures forall i | 0 <= i < t.Length && !(at <= i < at + n) :: t[i] == old(t[i])
  {
    var rest := word;
    ghost var before, bytes := t[..], Bytes(word, n);
    for i := 0 to n
      invariant t[..] == Written(before, at, bytes[..i])
      invariant Bytes(rest, n - i) == bytes[i..]
    {
      assert bytes[i..][0] == bytes[i] && bytes[i..][1..] == bytes[i + 1..];
      assert bytes[..i + 1] == bytes[..i] + [bytes[i]];
      t[at + i] := rest % 256;
      rest := rest / 256;
    }
    assert bytes[..n] == bytes;
  }

  method FastInt2Store(t: array<UChar>, at: nat, v: int)
    requires at + 2 <= t.Length
    modifies t
    ensures t[..] == Written(old(t[..]), at, Bytes(v, 2))
    ensures forall i | 0 <= i < t.Length && !(at <= i < at + 2) :: t[i] == old(t[i])
  {
    StoreWord(t, at, v % TWO16, 2);
    WordPowers();
    BytesOfMod(v, 2);
  }

  method FastInt3Store(t: array<UChar>, at: nat, v: int)
    requires at + 3 <= t.Length
    modifies t
    ensures t[..] == Written(old(t[..]), at, Bytes(v, 3))
    ensures forall i | 0 <= i < t.Length && !(at <= i < at + 3) :: t[i] == old(t[i])
  {
    CastKeepsBytes(v);
    FirstBytes(v);
    t[at] := v % 256;
    t[at + 1] := v % TWO32 / 0x100 % 256;
    t[at + 2] := v / 0x1_0000 % 256;
  }

  method FastInt4Store(t: array<UChar>, at: nat, v: int)
    requires at + 4 <= t.Length
    modifies t
    ensures t[..] == Written(old(t[..]), at, Bytes(v, 4))
    ensures forall i | 0 <= i < t.Length && !(at <= i < at + 4) :: t[i] == old(t[i])
  {
    StoreWord(t, at, v % TWO32, 4);
    WordPowers();
    BytesOfMod(v, 4);
  }

  method FastInt5Store(t: array<UChar>, at: nat, v: int)
    requires at + 5 <= t.Length
    modifies t
    ensures t[..] == Written(old(t[..]), at, Bytes(v, 5))
    ensures forall i | 0 <= i < t.Length && !(at <= i < at + 5) :: t[i] == old(t[i])
  {
    FastInt4Store(t, at, v);
    ghost var mid := t[..];
    t[at + 4] := v / TWO32 % 256;
    BytesAboveWord(v, 1);
    assert Bytes(v / TWO32, 1) == [v / TWO32 % 256];
    assert t[..] == Written(mid, at + 4, Bytes(v / TWO32, 1));
    WrittenTwice(old(t[..]), at, Bytes(v, 4), Bytes(v / TWO32, 1));
  }

  method FastInt6Store(t: array<UChar>, at: nat, v: int)
    requires at + 6 <= t.Length
    modifies t
    ensures t[..] == Written(old(t[..]), at, Bytes(v, 6))
    ensures forall i | 0 <= i < t.Length && !(at <= i < at + 6) :: t[i] == old(t[i])
  {
    FastInt4Store(t, at, v);
    FastInt2Store(t, at + 4, v / TWO32);
    BytesAboveWord(v, 2);
    WrittenTwice(old(t[..]), at, Bytes(v, 4), Bytes(v / TWO32, 2));
  }

  method FastInt8Store(t: array<UChar>, at: nat, v: int)
    requires at + 8 <= t.Length
    modifies t
    ensures t[..] == Written(old(t[..]), at, Bytes(v, 8))
    ensures forall i | 0 <= i < t.Length && !(at <= i < at + 8) :: t[i] == old(t[i])
  {
    StoreWord(t, at, v % TWO64, 8);
    WordPowers();
    BytesOfMod(v, 8);
  }
}
