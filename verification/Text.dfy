/** The string operations of Python that several components share. */
module Text {
  predicate IsSpace(c: char) {
    var n := c as int;
    9 <= n <= 13 || 28 <= n <= 32 || n == 0x85 || n == 0xA0 || n == 0x1680 || 0x2000 <= n <= 0x200A
    || n == 0x2028 || n == 0x2029 || n == 0x202F || n == 0x205F || n == 0x3000
  }

  predicate Trimmed(s: string) {
    s == "" || (!IsSpace(s[0]) && !IsSpace(s[|s| - 1]))
  }

  /** `strip` without arguments. */
  function Strip(s: string): (r: string)
    ensures Trimmed(r)
    ensures Trimmed(s) ==> r == s
    ensures forall c | c in r :: c in s
  {
    if s != "" && IsSpace(s[0]) then Strip(s[1..])
    else if s != "" && IsSpace(s[|s| - 1]) then Strip(s[..|s| - 1])
    else s
  }

  predicate StartsWith(s: string, prefix: string) {
    |prefix| <= |s| && s[..|prefix|] == prefix
  }

  /** The first position of a character, or the length. */
  function Find(s: string, c: char): (n: nat)
    ensures n <= |s| && (n < |s| ==> s[n] == c)
    ensures forall i | 0 <= i < n :: s[i] != c
  {
    if s == "" || s[0] == c then 0 else 1 + Find(s[1..], c)
  }

  lemma FindBehind(x: string, c: char, y: string)
    requires c !in x
    ensures Find(x + [c] + y, c) == |x|
  {
    var s := x + [c] + y;
    assert s[|x|] == c;
    assert forall i | 0 <= i < |x| :: s[i] == x[i] && x[i] in x;
  }

  function Lower(c: char): char {
    if 'A' <= c <= 'Z' then (c as int + 32) as char else c
  }

  predicate IsUpper(c: char) { 'A' <= c <= 'Z' }
  predicate IsDigit(c: char) { '0' <= c <= '9' }
  predicate IsLetter(c: char) { 'A' <= c <= 'Z' || 'a' <= c <= 'z' }
  predicate IsWordChar(c: char) { IsLetter(c) || IsDigit(c) || c == '_' }

  function Lowered(s: string): (r: string)
    ensures |r| == |s| && forall i | 0 <= i < |s| :: r[i] == Lower(s[i])
  {
    seq(|s|, i requires 0 <= i < |s| => Lower(s[i]))
  }

  function HexDigit(n: nat): char
    requires n < 16
  {
    if n < 10 then (48 + n) as char else (87 + n) as char
  }

  lemma Cut<T>(a: seq<T>, b: seq<T>)
    ensures (a + b)[|a|..] == b && (a + b)[..|a|] == a
  {
  }

  lemma CutAt(x: string, c: char, y: string)
    ensures (x + [c] + y)[..|x|] == x && (x + [c] + y)[|x| + 1..] == y
  {
  }

  // ---------------------------------------------------------------------------------------------
  // Lines
  // ---------------------------------------------------------------------------------------------

  /** Lines, each with a newline. */
  function Unlines(lines: seq<string>): string {
    if lines == [] then "" else lines[0] + "\n" + Unlines(lines[1..])
  }

  /** `split("\n")`. */
  function Pieces(text: string): (p: seq<string>)
    ensures p != []
    ensures forall i | 0 <= i < |p| :: '\n' !in p[i]
  {
    if text == "" then [""]
    else
      var rest := Pieces(text[1..]);
      if text[0] == '\n' then [""] + rest else [[text[0]] + rest[0]] + rest[1..]
  }

  lemma {:induction false} PiecesPass(line: string, rest: string)
    requires '\n' !in line
    ensures Pieces(line + "\n" + rest) == [line] + Pieces(rest)
    ensures Pieces(line) == [line]
  {
    var text := line + "\n" + rest;
    if line == "" {
      assert text[0] == '\n' && text[1..] == rest;
    } else {
      assert line[0] in line && text[0] == line[0] && text[1..] == line[1..] + "\n" + rest;
      PiecesPass(line[1..], rest);
      assert [line[0]] + line[1..] == line;
    }
  }

  lemma CutEnd(first: string, rest: string)
    requires rest != ""
    ensures var all := first + "\n" + rest; all[..|all| - 1] == first + "\n" + rest[..|rest| - 1]
  {
  }

  /** Lines with or without a newline behind the last are told apart by nothing else. */
  lemma {:induction false} PiecesOfUnlines(lines: seq<string>)
    requires forall i | 0 <= i < |lines| :: '\n' !in lines[i]
    ensures Pieces(Unlines(lines)) == lines + [""]
    ensures lines != [] ==> Unlines(lines) != "" && Pieces(Unlines(lines)[..|Unlines(lines)| - 1]) == lines
  {
    if lines != [] {
      hide Pieces;
      var first, rest := lines[0], Unlines(lines[1..]);
      PiecesOfUnlines(lines[1..]);
      PiecesPass(first, rest);
      assert [first] + lines[1..] == lines;
      var cut := Unlines(lines)[..|Unlines(lines)| - 1];
      if |lines| == 1 {
        assert cut == first;
      } else {
        CutEnd(first, rest);
        PiecesPass(first, rest[..|rest| - 1]);
      }
    }
  }

  lemma {:induction false} UnlinesOfPieces(text: string)
    ensures Unlines(Pieces(text)) == text + "\n"
  {
    if text != "" {
      var rest := Pieces(text[1..]);
      UnlinesOfPieces(text[1..]);
      if text[0] != '\n' {
        var all := [[text[0]] + rest[0]] + rest[1..];
        assert all[1..] == rest[1..];
        assert Unlines(all) == [text[0]] + (rest[0] + "\n" + Unlines(rest[1..]));
        assert text == [text[0]] + text[1..];
      } else {
        assert ([""] + rest)[1..] == rest;
      }
    }
  }

  lemma {:induction false} UnlinesEnd(lines: seq<string>, last: string)
    ensures Unlines(lines + [last]) == Unlines(lines) + last + "\n"
  {
    var all := lines + [last];
    if lines == [] {
      assert all[1..] == [];
    } else {
      assert all[1..] == lines[1..] + [last];
      UnlinesEnd(lines[1..], last);
    }
  }
}
