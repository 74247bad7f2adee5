/**
 JSON strings as Python writes them (ASCII only) and reads them, over code points, unpaired surrogates
 included: section 7 of RFC 8259.
 */
module JsonString {
  import opened Wrappers
  import opened Text

  type Code = c: nat | c < 0x11_0000

  type CodePoints = seq<Code>

  predicate High(c: nat) { 0xD800 <= c < 0xDC00 }
  predicate Low(c: nat) { 0xDC00 <= c < 0xE000 }
  predicate Surrogate(c: nat) { High(c) || Low(c) }

  function Combined(high: nat, low: nat): Code
    requires High(high) && Low(low)
  {
    0x1_0000 + 0x400 * (high - 0xD800) + (low - 0xDC00)
  }

  // ---------------------------------------------------------------------------------------------
  // Hexadecimal
  // ---------------------------------------------------------------------------------------------

  function HexValue(c: char): (n: Option<nat>)
    ensures n.Some? ==> n.value < 16
  {
    if '0' <= c <= '9' then Some(c as int - 48)
    else if 'a' <= c <= 'f' then Some(c as int - 87)
    else if 'A' <= c <= 'F' then Some(c as int - 55)
    else None
  }

  /** Lower case, always four digits. */
  function Hex4(n: nat): (s: string)
    requires n < 0x1_0000
    ensures |s| == 4
  {
    [HexDigit(n / 4096), HexDigit(n / 256 % 16), HexDigit(n / 16 % 16), HexDigit(n % 16)]
  }

  /** Four digits in either case. */
  function ReadHex4(s: string): (n: Option<nat>)
    ensures n.Some? ==> |s| >= 4 && n.value < 0x1_0000
  {
    if |s| < 4 then None
    else
      match (HexValue(s[0]), HexValue(s[1]), HexValue(s[2]), HexValue(s[3]))
      case (Some(a), Some(b), Some(c), Some(d)) => Some(4096 * a + 256 * b + 16 * c + d)
      case _ => None
  }

  lemma HexBack(n: nat, rest: string)
    requires n < 0x1_0000
    ensures ReadHex4(Hex4(n) + rest) == Some(n)
  {
    hide HexDigit, HexValue;
    var s := Hex4(n) + rest;
    assert s[0] == HexDigit(n / 4096) && s[1] == HexDigit(n / 256 % 16) && s[2] == HexDigit(n / 16 % 16) && s[3] == HexDigit(n % 16);
    DigitBack(n / 4096);
    DigitBack(n / 256 % 16);
    DigitBack(n / 16 % 16);
    DigitBack(n % 16);
    Positional(n);
  }

  lemma Positional(n: nat)
    ensures 4096 * (n / 4096) + 256 * (n / 256 % 16) + 16 * (n / 16 % 16) + n % 16 == n
  {
    assert n / 256 == 16 * (n / 4096) + n / 256 % 16;
    assert n / 16 == 16 * (n / 256) + n / 16 % 16;
  }

  lemma DigitBack(n: nat)
    requires n < 16
    ensures HexValue(HexDigit(n)) == Some(n)
  {
  }

  // ---------------------------------------------------------------------------------------------
  // Writing
  // ---------------------------------------------------------------------------------------------

  function Escaped(n: nat): string
    requires n < 0x1_0000
  {
    "\\u" + Hex4(n)
  }

  /** Outside of the printable ASCII characters everything is escaped, beyond the basic plane as a surrogate pair. */
  function WriteCode(c: Code): string {
    if c == 34 then "\\\""
    else if c == 92 then "\\\\"
    else if c == 10 then "\\n"
    else if c == 13 then "\\r"
    else if c == 9 then "\\t"
    else if c == 12 then "\\f"
    else if c == 8 then "\\b"
    else if 32 <= c <= 126 then [c as char]
    else if c < 0x1_0000 then Escaped(c)
    else Escaped(0xD800 + (c - 0x1_0000) / 0x400) + Escaped(0xDC00 + (c - 0x1_0000) % 0x400)
  }

  function WriteAll(t: CodePoints): string {
    if t == [] then "" else WriteCode(t[0]) + WriteAll(t[1..])
  }

  function Dumps(t: CodePoints): string {
    "\"" + WriteAll(t) + "\""
  }

  // ---------------------------------------------------------------------------------------------
  // Reading
  // ---------------------------------------------------------------------------------------------

  function Simple(c: char): Option<Code> {
    if c == '"' then Some(34)
    else if c == '\\' then Some(92)
    else if c == '/' then Some(47)
    else if c == 'b' then Some(8)
    else if c == 'f' then Some(12)
    else if c == 'n' then Some(10)
    else if c == 'r' then Some(13)
    else if c == 't' then Some(9)
    else None
  }

  /** The low surrogate that is escaped right here, if one is. */
  function LowAhead(s: string): (n: Option<nat>)
    ensures n.Some? ==> |s| >= 6 && Low(n.value)
  {
    if |s| >= 6 && s[0] == '\\' && s[1] == 'u' && ReadHex4(s[2..]).Some? && Low(ReadHex4(s[2..]).value) then ReadHex4(s[2..])
    else None
  }

  /** One code point and how many characters it took. */
  function ReadCode(s: string): (r: Option<(Code, nat)>)
    requires s != ""
    ensures r.Some? ==> 1 <= r.value.1 <= |s|
  {
    if s[0] == '\\' then
      if |s| < 2 then None
      else if s[1] != 'u' then (if Simple(s[1]).Some? then Some((Simple(s[1]).value, 2)) else None)
      else
        match ReadHex4(s[2..])
        case None => None
        case Some(n) =>
          if High(n) && LowAhead(s[6..]).Some? then Some((Combined(n, LowAhead(s[6..]).value), 12))
          else Some((n, 6))
    else if s[0] == '"' || s[0] as int < 32 then None
    else Some((s[0] as int, 1))
  }

  /** The text up to the closing quote, which must be the last character. */
  function ReadAll(s: string): Option<CodePoints>
    decreases |s|
  {
    if s == "" then None
    else if s == "\"" then Some([])
    else
      match ReadCode(s)
      case None => None
      case Some((c, n)) =>
        match ReadAll(s[n..])
        case None => None
        case Some(t) => Some([c] + t)
  }

  /** A JSON string with nothing around it. */
  function Loads(s: string): Option<CodePoints> {
    if s != "" && s[0] == '"' then ReadAll(s[1..]) else None
  }

  // ---------------------------------------------------------------------------------------------
  // Reading what was written
  // ---------------------------------------------------------------------------------------------

  /** Reading joins a high surrogate and a low one right behind it. */
  function Paired(t: CodePoints): CodePoints {
    if |t| >= 2 && High(t[0]) && Low(t[1]) then [Combined(t[0], t[1])] + Paired(t[2..])
    else if t == [] then []
    else [t[0]] + Paired(t[1..])
  }

  lemma EscapedLow(n: nat, rest: string)
    requires n < 0x1_0000
    ensures LowAhead(Escaped(n) + rest) == if Low(n) then Some(n) else None
  {
    hide ReadHex4, Hex4;
    var s := Escaped(n) + rest;
    assert s[2..] == Hex4(n) + rest;
    HexBack(n, rest);
  }

  lemma ReadEscaped(n: nat, rest: string)
    requires n < 0x1_0000
    ensures ReadCode(Escaped(n) + rest) ==
            if High(n) && LowAhead(rest).Some? then Some((Combined(n, LowAhead(rest).value), 12)) else Some((n, 6))
    ensures (Escaped(n) + rest)[6..] == rest
  {
    hide ReadHex4, Hex4, LowAhead;
    var s := Escaped(n) + rest;
    assert s[2..] == Hex4(n) + rest;
    assert s[6..] == rest;
    HexBack(n, rest);
  }

  /** What the reader sees behind a high surrogate. */
  lemma NextIsLow(t: CodePoints)
    ensures LowAhead(WriteAll(t) + "\"") == if t != [] && Low(t[0]) then Some(t[0]) else None
  {
    hide Escaped;
    if t == [] {
      assert WriteAll(t) + "\"" == "\"";
    } else {
      var c, rest := t[0], WriteAll(t[1..]) + "\"";
      assert WriteAll(t) + "\"" == WriteCode(c) + rest;
      if c >= 0x1_0000 {
        var high, low := 0xD800 + (c - 0x1_0000) / 0x400, 0xDC00 + (c - 0x1_0000) % 0x400;
        assert WriteCode(c) + rest == Escaped(high) + (Escaped(low) + rest);
        EscapedLow(high, Escaped(low) + rest);
      } else if WriteCode(c) == Escaped(c) {
        EscapedLow(c, rest);
      } else {
        ShortIsNoEscape(c, rest);
      }
    }
  }

  lemma ShortIsNoEscape(c: Code, rest: string)
    requires c < 0x1_0000 && WriteCode(c) != Escaped(c)
    ensures LowAhead(WriteCode(c) + rest).None? && c < 127
    ensures ReadCode(WriteCode(c) + rest) == Some((c, |WriteCode(c)|))
  {
    var s := WriteCode(c) + rest;
    assert |WriteCode(c)| >= 1 && s[0] == WriteCode(c)[0] && (|WriteCode(c)| == 2 ==> s[1] == WriteCode(c)[1]);
  }

  /** Beyond the basic plane a pair of surrogates is written, and read as one. */
  lemma ReadBeyond(c: Code, rest: string)
    requires c >= 0x1_0000
    ensures ReadCode(WriteCode(c) + rest) == Some((c, |WriteCode(c)|))
  {
    hide Escaped, LowAhead, ReadCode;
    var high, low := 0xD800 + (c - 0x1_0000) / 0x400, 0xDC00 + (c - 0x1_0000) % 0x400;
    assert WriteCode(c) + rest == Escaped(high) + (Escaped(low) + rest);
    ReadEscaped(high, Escaped(low) + rest);
    EscapedLow(low, rest);
    EscapedLength(high);
    EscapedLength(low);
  }

  /** A code point and what was written behind it. */
  lemma ReadWritten(c: Code, t: CodePoints)
    ensures var s := WriteCode(c) + (WriteAll(t) + "\"");
            if High(c) && t != [] && Low(t[0]) then
              t[0] < 0x1_0000 && s == Escaped(c) + (Escaped(t[0]) + (WriteAll(t[1..]) + "\"")) && ReadCode(s) == Some((Combined(c, t[0]), 12))
            else ReadCode(s) == Some((c, |WriteCode(c)|))
  {
    hide Escaped, LowAhead, ReadCode, WriteCode;
    var rest := WriteAll(t) + "\"";
    if c >= 0x1_0000 {
      ReadBeyond(c, rest);
    } else if WriteCode(c) == Escaped(c) {
      ReadEscaped(c, rest);
      NextIsLow(t);
      EscapedLength(c);
      if t != [] && Low(t[0]) {
        LowIsEscaped(t[0]);
        assert WriteAll(t) + "\"" == Escaped(t[0]) + (WriteAll(t[1..]) + "\"");
      }
    } else {
      ShortIsNoEscape(c, rest);
    }
  }

  lemma LowIsEscaped(c: Code)
    requires Low(c)
    ensures WriteCode(c) == Escaped(c)
  {
  }

  lemma EscapedLength(n: nat)
    requires n < 0x1_0000
    ensures |Escaped(n)| == 6
  {
  }

  /** For every text: reading what was written gives it back with its surrogates paired up. */
  lemma {:induction false} ReadOfWrite(t: CodePoints)
    ensures ReadAll(WriteAll(t) + "\"") == Some(Paired(t))
    decreases |t|
  {
    hide Escaped, ReadCode, WriteCode;
    if t == [] {
      assert WriteAll(t) + "\"" == "\"";
    } else {
      var c, rest := t[0], t[1..];
      var s := WriteAll(t) + "\"";
      assert s == WriteCode(c) + (WriteAll(rest) + "\"");
      ReadWritten(c, rest);
      assert s != "\"";
      if High(c) && rest != [] && Low(rest[0]) {
        EscapedLength(c);
        EscapedLength(rest[0]);
        assert s[12..] == WriteAll(t[2..]) + "\"" by {
          assert rest[1..] == t[2..];
        }
        ReadOfWrite(t[2..]);
      } else {
        assert s[|WriteCode(c)|..] == WriteAll(rest) + "\"";
        ReadOfWrite(rest);
      }
    }
  }

  predicate NoPairs(t: CodePoints) {
    forall i | 0 <= i < |t| - 1 :: !(High(t[i]) && Low(t[i + 1]))
  }

  /** So the round trip is exact for just the texts without such a pair. */
  lemma LoadsOfDumps(t: CodePoints)
    ensures Loads(Dumps(t)) == Some(Paired(t))
    ensures Loads(Dumps(t)) == Some(t) <==> NoPairs(t)
  {
    hide WriteAll, Paired, NoPairs, ReadAll;
    assert Dumps(t)[1..] == WriteAll(t) + "\"";
    ReadOfWrite(t);
    PairedIsSame(t);
  }

  lemma {:induction false} PairedIsSame(t: CodePoints)
    ensures |Paired(t)| <= |t|
    ensures Paired(t) == t <==> NoPairs(t)
    decreases |t|
  {
    if |t| >= 2 && High(t[0]) && Low(t[1]) {
      PairedIsSame(t[2..]);
    } else if t != [] {
      PairedIsSame(t[1..]);
      NoPairsCons(t);
      assert Paired(t) == [t[0]] + Paired(t[1..]);
      assert Paired(t) == t <==> Paired(t[1..]) == t[1..];
    }
  }

  lemma NoPairsCons(t: CodePoints)
    requires t != []
    ensures NoPairs(t) <==> NoPairs(t[1..]) && (|t| >= 2 ==> !(High(t[0]) && Low(t[1])))
  {
    if NoPairs(t[1..]) && (|t| >= 2 ==> !(High(t[0]) && Low(t[1]))) {
      forall i | 0 <= i < |t| - 1 ensures !(High(t[i]) && Low(t[i + 1])) {
        if i > 0 {
          assert t[1..][i - 1] == t[i] && t[1..][i] == t[i + 1];
        }
      }
    }
    if NoPairs(t) {
      forall i | 0 <= i < |t| - 2 ensures !(High(t[1..][i]) && Low(t[1..][i + 1])) {
        assert t[1..][i] == t[i + 1] && t[1..][i + 1] == t[i + 2];
      }
    }
  }
}
