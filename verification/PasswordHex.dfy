/** The hex rendering of a password digest.  The digest itself comes from Java's MessageDigest and is
    any sequence of signed bytes here. */
module PasswordHex {
  import opened Relational

  /** A Java `byte`. */
  newtype Byte = b: int | -128 <= b < 128

  const DIGITS := "0123456789abcdef"

  /** `%02x` of a byte: a negative byte is rendered as its value plus 256. */
  function Unsigned(b: Byte): (u: int)
    ensures 0 <= u < 256
  {
    if b < 0 then b as int + 256 else b as int
  }

  function HexByte(b: Byte): string {
    [DIGITS[Unsigned(b) / 16], DIGITS[Unsigned(b) % 16]]
  }

  function Hex(bytes: seq<Byte>): string {
    if bytes == [] then "" else HexByte(bytes[0]) + Hex(bytes[1..])
  }

  /** The loop of `sha256`: one byte at a time appended to a StringBuilder. */
  method ToHex(hash: seq<Byte>) returns (sb: string)
    ensures sb == Hex(hash)
    ensures |hash| == 32 ==> |sb| == 64
    ensures |sb| == 2 * |hash|
    ensures forall i | 0 <= i < |hash| ::
              16 * Nibble(sb[2 * i]) + Nibble(sb[2 * i + 1])
              == if hash[i] < 0 then hash[i] as int + 256 else hash[i] as int
  {
    sb := "";
    for i := 0 to |hash|
      invariant sb + Hex(hash[i..]) == Hex(hash)
    {
      assert hash[i..][1..] == hash[i + 1..];
      sb := sb + HexByte(hash[i]);
    }
    assert sb == sb + Hex([]);
    HexShape(hash);
    forall i | 0 <= i < |hash|
      ensures 16 * Nibble(sb[2 * i]) + Nibble(sb[2 * i + 1])
              == if hash[i] < 0 then hash[i] as int + 256 else hash[i] as int
    {
      HexReadsAsByte(hash, i);
    }
  }

  // ---------- Reading hex back ----------

  /** The value of a hex digit by its character code. */
  function Nibble(c: char): int {
    if '0' <= c <= '9' then c as int - '0' as int else c as int - 'a' as int + 10
  }

  /** The two characters of byte `i`, high digit first, read as its unsigned value. */
  lemma {:induction false} HexReadsAsByte(bytes: seq<Byte>, i: nat)
    requires i < |bytes|
    ensures |Hex(bytes)| == 2 * |bytes|
    ensures 16 * Nibble(Hex(bytes)[2 * i]) + Nibble(Hex(bytes)[2 * i + 1])
            == if bytes[i] < 0 then bytes[i] as int + 256 else bytes[i] as int
  {
    HexShape(bytes);
    if i == 0 {
      NibbleOfDigit(Unsigned(bytes[0]) / 16);
      NibbleOfDigit(Unsigned(bytes[0]) % 16);
    } else {
      HexReadsAsByte(bytes[1..], i - 1);
      assert Hex(bytes)[2..] == Hex(bytes[1..]);
      assert Hex(bytes)[2 * i] == Hex(bytes)[2..][2 * (i - 1)];
      assert Hex(bytes)[2 * i + 1] == Hex(bytes)[2..][2 * (i - 1) + 1];
    }
  }

  lemma NibbleOfDigit(d: int)
    requires 0 <= d < 16
    ensures Nibble(DIGITS[d]) == d
  {
  }

  function DigitValue(c: char): Option<int> {
    if '0' <= c <= '9' then Some(c as int - '0' as int)
    else if 'a' <= c <= 'f' then Some(c as int - 'a' as int + 10)
    else None
  }

  function FromUnsigned(u: int): Byte
    requires 0 <= u < 256
  {
    if u < 128 then u as Byte else (u - 256) as Byte
  }

  function Unhex(s: string): (r: Option<seq<Byte>>)
    decreases |s|
  {
    if s == "" then Some([])
    else if |s| == 1 then None
    else
      var hi, lo, rest := DigitValue(s[0]), DigitValue(s[1]), Unhex(s[2..]);
      if hi.Some? && lo.Some? && rest.Some? && 0 <= hi.value < 16 && 0 <= lo.value < 16
      then Some([FromUnsigned(hi.value * 16 + lo.value)] + rest.value)
      else None
  }

  lemma DigitRoundTrip(d: int)
    requires 0 <= d < 16
    ensures DigitValue(DIGITS[d]) == Some(d)
  {
  }

  /** Every digest can be recovered from its hex form. */
  lemma {:induction false} UnhexHex(bytes: seq<Byte>)
    ensures Unhex(Hex(bytes)) == Some(bytes)
  {
    if bytes != [] {
      var u := Unsigned(bytes[0]);
      DigitRoundTrip(u / 16);
      DigitRoundTrip(u % 16);
      assert FromUnsigned(u / 16 * 16 + u % 16) == bytes[0];
      UnhexHex(bytes[1..]);
      assert Hex(bytes)[2..] == Hex(bytes[1..]);
      assert [bytes[0]] + bytes[1..] == bytes;
    }
  }

  /** Two characters per byte, lower-case hex digits only. */
  lemma {:induction false} HexShape(bytes: seq<Byte>)
    ensures |Hex(bytes)| == 2 * |bytes|
    ensures forall c | c in Hex(bytes) :: '0' <= c <= '9' || 'a' <= c <= 'f'
  {
    if bytes != [] {
      HexShape(bytes[1..]);
      DigitRoundTrip(Unsigned(bytes[0]) / 16);
      DigitRoundTrip(Unsigned(bytes[0]) % 16);
    }
  }

  // ---------- Comparing stored hashes ----------

  function LowerChar(c: char): char {
    if 'A' <= c <= 'Z' then (c as int + 32) as char else c
  }

  function Lower(s: string): string {
    seq(|s|, i requires 0 <= i < |s| => LowerChar(s[i]))
  }

  /** A case-insensitive comparison of stored hashes still compares digests, of any lengths. */
  lemma HexIsInjective(a: seq<Byte>, b: seq<Byte>)
    ensures Lower(Hex(a)) == Lower(Hex(b)) <==> a == b
  {
    LowerKeepsHex(a);
    LowerKeepsHex(b);
    UnhexHex(a);
    UnhexHex(b);
  }

  lemma LowerKeepsHex(a: seq<Byte>)
    ensures Lower(Hex(a)) == Hex(a)
  {
  }
}
