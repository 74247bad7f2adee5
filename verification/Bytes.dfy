/** Little-endian integers, UTF-16 and decimal text, as the save format uses them. */
module Bytes {
  type Byte = b: nat | b < 256

  // ---------------------------------------------------------------------------------------------
  // Little-endian integers
  // ---------------------------------------------------------------------------------------------

  function Pow256(width: nat): (p: nat)
    ensures p > 0
  {
    if width == 0 then 1 else 256 * Pow256(width - 1)
  }

  function Unsigned(bytes: seq<Byte>): (n: nat)
    ensures n < Pow256(|bytes|)
  {
    if bytes == [] then 0 else bytes[0] + 256 * Unsigned(bytes[1..])
  }

  /** Two's complement. */
  function Signed(bytes: seq<Byte>): int {
    var n := Unsigned(bytes);
    if 2 * n < Pow256(|bytes|) then n else n - Pow256(|bytes|)
  }

  function PackUnsigned(n: nat, width: nat): (bytes: seq<Byte>)
    ensures |bytes| == width
  {
    if width == 0 then [] else [n % 256] + PackUnsigned(n / 256, width - 1)
  }

  function PackSigned(n: int, width: nat): (bytes: seq<Byte>)
    requires -(Pow256(width) as int) <= 2 * n < Pow256(width)
    ensures |bytes| == width
  {
    PackUnsigned(if n >= 0 then n else n + Pow256(width), width)
  }

  lemma {:induction false} UnsignedRoundTrip(n: nat, width: nat)
    requires n < Pow256(width)
    ensures Unsigned(PackUnsigned(n, width)) == n
  {
    if width > 0 {
      UnsignedRoundTrip(n / 256, width - 1);
      assert PackUnsigned(n, width)[1..] == PackUnsigned(n / 256, width - 1);
    }
  }

  lemma SignedRoundTrip(n: int, width: nat)
    requires -(Pow256(width) as int) <= 2 * n < Pow256(width)
    ensures Signed(PackSigned(n, width)) == n
  {
    UnsignedRoundTrip(if n >= 0 then n else n + Pow256(width), width);
  }

  lemma Powers()
    ensures Pow256(1) == 0x100 && Pow256(2) == 0x1_0000 && Pow256(4) == 0x1_0000_0000 && Pow256(8) == 0x1_0000_0000_0000_0000
  {
    assert Pow256(3) == 0x100_0000;
    assert Pow256(5) == 0x100_0000_0000;
    assert Pow256(6) == 0x1_0000_0000_0000;
    assert Pow256(7) == 0x100_0000_0000_0000;
  }

  // ---------------------------------------------------------------------------------------------
  // ASCII and UTF-16, with undecodable input replaced
  // ---------------------------------------------------------------------------------------------

  const REPLACEMENT: char := '\U{FFFD}'

  predicate IsAscii(s: string) {
    forall i | 0 <= i < |s| :: s[i] as int < 128
  }

  function EncodeAscii(s: string): (bytes: seq<Byte>)
    requires IsAscii(s)
    ensures |bytes| == |s|
  {
    if s == "" then [] else [s[0] as Byte] + EncodeAscii(s[1..])
  }

  function DecodeAscii(bytes: seq<Byte>): (s: string)
    ensures |s| == |bytes|
  {
    if bytes == [] then "" else [if bytes[0] < 128 then bytes[0] as char else REPLACEMENT] + DecodeAscii(bytes[1..])
  }

  lemma {:induction false} AsciiRoundTrip(s: string)
    requires IsAscii(s)
    ensures DecodeAscii(EncodeAscii(s)) == s
  {
    if s != "" {
      AsciiRoundTrip(s[1..]);
      assert EncodeAscii(s)[1..] == EncodeAscii(s[1..]);
    }
  }

  function PackUnit(u: nat): seq<Byte>
    requires u < 0x1_0000
  {
    [u % 256, u / 256]
  }

  function Unit(lo: Byte, hi: Byte): (u: nat)
    ensures u < 0x1_0000
  {
    lo as int + 256 * hi as int
  }

  /** A character of the basic plane is one 16-bit unit, any other a surrogate pair. */
  function EncodeUtf16Char(c: char): (bytes: seq<Byte>)
    ensures |bytes| == 2 || |bytes| == 4
  {
    var n := c as int;
    if n < 0x1_0000 then PackUnit(n)
    else PackUnit(0xD800 + (n - 0x1_0000) / 0x400) + PackUnit(0xDC00 + (n - 0x1_0000) % 0x400)
  }

  function EncodeUtf16(s: string): (bytes: seq<Byte>)
    ensures |bytes| % 2 == 0
  {
    if s == "" then [] else EncodeUtf16Char(s[0]) + EncodeUtf16(s[1..])
  }

  /** Decodes pairs of bytes; an unpaired surrogate becomes one replacement character. */
  function DecodeUtf16(bytes: seq<Byte>): string {
    if |bytes| < 2 then ""
    else
      var u := Unit(bytes[0], bytes[1]);
      if u < 0xD800 || 0xE000 <= u then [u as char] + DecodeUtf16(bytes[2..])
      else if u < 0xDC00 && |bytes| >= 4 && 0xDC00 <= Unit(bytes[2], bytes[3]) < 0xE000 then
        [(0x1_0000 + 0x400 * (u - 0xD800) + (Unit(bytes[2], bytes[3]) - 0xDC00)) as char] + DecodeUtf16(bytes[4..])
      else [REPLACEMENT] + DecodeUtf16(bytes[2..])
  }

  lemma {:induction false} Utf16RoundTrip(s: string)
    ensures DecodeUtf16(EncodeUtf16(s)) == s
  {
    if s != "" {
      var head, tail := EncodeUtf16Char(s[0]), EncodeUtf16(s[1..]);
      Utf16RoundTrip(s[1..]);
      assert (head + tail)[|head|..] == tail;
      assert s == [s[0]] + s[1..];
    }
  }

  // ---------------------------------------------------------------------------------------------
  // Decimal text
  // ---------------------------------------------------------------------------------------------

  function Digits(n: nat): (s: string)
    ensures s != ""
  {
    if n < 10 then [(n + 48) as char] else Digits(n / 10) + [(n % 10 + 48) as char]
  }

  function Decimal(n: int): string {
    if n < 0 then "-" + Digits(-n) else Digits(n)
  }

  function DigitsValue(s: string): int {
    if s == "" then 0 else 10 * DigitsValue(s[..|s| - 1]) + (s[|s| - 1] as int - 48)
  }

  lemma {:induction false} DigitsRoundTrip(n: nat)
    ensures DigitsValue(Digits(n)) == n
    ensures forall c | c in Digits(n) :: '0' <= c <= '9'
    ensures n > 0 ==> Digits(n)[0] != '0'
  {
    if n >= 10 {
      DigitsRoundTrip(n / 10);
      assert Digits(n)[..|Digits(n)| - 1] == Digits(n / 10);
    } else {
      assert [(n + 48) as char][..0] == "";
    }
  }
}
