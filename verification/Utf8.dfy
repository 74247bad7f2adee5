/** Decoding UTF-8 with replacement: every maximal part that cannot be a character becomes U+FFFD. */
module Utf8 {
  import opened Bytes

  /** How many bytes follow the first, and what the second may be; nothing follows a byte that cannot be first. */
  function Lead(first: Byte): (nat, nat, nat) {
    if 0xC2 <= first <= 0xDF then (1, 0x80, 0xBF)
    else if first == 0xE0 then (2, 0xA0, 0xBF)
    else if first == 0xED then (2, 0x80, 0x9F)
    else if 0xE1 <= first <= 0xEF then (2, 0x80, 0xBF)
    else if first == 0xF0 then (3, 0x90, 0xBF)
    else if first == 0xF4 then (3, 0x80, 0x8F)
    else if 0xF1 <= first <= 0xF3 then (3, 0x80, 0xBF)
    else (0, 0, 0)
  }

  predicate Continues(b: Byte) { 0x80 <= b <= 0xBF }

  /** How many bytes at the front belong together. */
  function Extent(b: seq<Byte>): (n: nat)
    requires b != []
    ensures 1 <= n <= |b| && n <= 1 + Lead(b[0]).0
  {
    var (more, lo, hi) := Lead(b[0]);
    if more == 0 || |b| < 2 || !(lo <= b[1] <= hi) then 1
    else if more == 1 || |b| < 3 || !Continues(b[2]) then 2
    else if more == 2 || |b| < 4 || !Continues(b[3]) then 3
    else 4
  }

  /** The first character. */
  function First(b: seq<Byte>): char
    requires b != []
  {
    if b[0] < 0x80 then b[0] as char
    else if Lead(b[0]).0 == 0 || Extent(b) <= Lead(b[0]).0 then REPLACEMENT
    else
      var n: seq<int> := seq(Extent(b), i requires 0 <= i < Extent(b) => b[i]);
      if |n| == 2 then ((n[0] - 0xC0) * 64 + (n[1] - 0x80)) as char
      else if |n| == 3 then ((n[0] - 0xE0) * 4096 + (n[1] - 0x80) * 64 + (n[2] - 0x80)) as char
      else ((n[0] - 0xF0) * 262144 + (n[1] - 0x80) * 4096 + (n[2] - 0x80) * 64 + (n[3] - 0x80)) as char
  }

  function Decode(b: seq<Byte>): string
    decreases |b|
  {
    if b == [] then "" else [First(b)] + Decode(b[Extent(b)..])
  }

  predicate WholeLines(b: seq<Byte>) {
    b == [] || b[|b| - 1] == 10
  }

  /** No character reaches across a newline. */
  lemma FirstIsLocal(a: seq<Byte>, b: seq<Byte>)
    requires a != [] && WholeLines(a)
    ensures Extent(a + b) == Extent(a) && First(a + b) == First(a)
  {
    var n := |a|;
    assert (a + b)[0] == a[0] && (n > 1 ==> (a + b)[1] == a[1]) && (n > 2 ==> (a + b)[2] == a[2]) && (n > 3 ==> (a + b)[3] == a[3]);
  }

  /** So text cut behind newlines is decoded piece by piece. */
  lemma {:induction false} DecodeConcat(a: seq<Byte>, b: seq<Byte>)
    requires WholeLines(a)
    ensures Decode(a + b) == Decode(a) + Decode(b)
    decreases |a|
  {
    hide First, Extent;
    if a == [] {
      assert a + b == b;
    } else {
      FirstIsLocal(a, b);
      var n := Extent(a);
      assert (a + b)[n..] == a[n..] + b;
      DecodeConcat(a[n..], b);
    }
  }
}
