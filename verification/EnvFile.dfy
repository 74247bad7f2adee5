/** The env file that carries settings from the form to the game: its writer in palwarden-jobd, its reader in palworld-config-parser. */
module EnvFile {
  import opened Wrappers
  import opened Text
  import opened IniConfig
  import opened IniLaws

  // ---------------------------------------------------------------------------------------------
  // Quoted values
  // ---------------------------------------------------------------------------------------------

  /** Replaces a backslash and the character behind it by that character, from left to right. */
  function Halved(s: string, c: char): string {
    if |s| >= 2 && s[0] == '\\' && s[1] == c then [c] + Halved(s[2..], c)
    else if s == "" then ""
    else [s[0]] + Halved(s[1..], c)
  }

  function Unescape(s: string): string {
    Halved(Halved(s, '"'), '\\')
  }

  lemma HalvedPlain(c: char, rest: string, q: char)
    requires c == '\\' ==> rest == "" || rest[0] != q
    ensures Halved([c] + rest, q) == [c] + Halved(rest, q)
  {
    assert ([c] + rest)[1..] == rest;
  }

  lemma HalvedPair(rest: string, q: char)
    ensures Halved(['\\', q] + rest, q) == [q] + Halved(rest, q)
  {
    assert (['\\', q] + rest)[2..] == rest;
  }

  /** One escaped character in front of what does not begin with a quote. */
  lemma QuoteHalved(c: char, rest: string)
    requires rest != "" ==> rest[0] != '"'
    ensures Halved(EscapeChar(c) + rest, '"') == (if c == '\\' then ['\\', c] else [c]) + Halved(rest, '"')
    ensures (EscapeChar(c) + rest)[0] != '"'
  {
    hide Halved;
    if c == '"' {
      HalvedPair(rest, '"');
    } else if c == '\\' {
      assert ['\\', c] + rest == ['\\'] + ([c] + rest);
      HalvedPlain('\\', [c] + rest, '"');
      HalvedPlain(c, rest, '"');
    } else {
      HalvedPlain(c, rest, '"');
    }
  }

  lemma DoubledCons(value: string, c: char)
    ensures Doubled(value, c) ==
            if value == "" then "" else (if value[0] == c then ['\\', c] else [value[0]]) + Doubled(value[1..], c)
  {
  }

  lemma {:induction false} QuotesHalved(value: string)
    ensures Halved(Escape(value), '"') == Doubled(value, '\\')
    ensures Escape(value) != "" ==> Escape(value)[0] != '"'
  {
    hide Escape, Halved, Doubled, EscapeChar;
    DoubledCons(value, '\\');
    if value != "" {
      QuotesHalved(value[1..]);
      EscapeCons(value);
      QuoteHalved(value[0], Escape(value[1..]));
    } else {
      EmptyHalved();
    }
  }

  lemma EmptyHalved()
    ensures Escape("") == "" && Halved("", '"') == ""
  {
  }

  lemma {:induction false} BackslashesHalved(value: string)
    ensures Halved(Doubled(value, '\\'), '\\') == value
  {
    hide Halved, Doubled;
    DoubledCons(value, '\\');
    if value != "" {
      var rest := Doubled(value[1..], '\\');
      BackslashesHalved(value[1..]);
      if value[0] == '\\' {
        HalvedPair(rest, '\\');
      } else {
        HalvedPlain(value[0], rest, '\\');
      }
    } else {
      NothingHalved();
    }
  }

  lemma NothingHalved()
    ensures Halved("", '\\') == ""
  {
  }

  /** The reader's two replacements undo the writer's, on every string. */
  lemma UnescapeOfEscape(value: string)
    ensures Unescape(Escape(value)) == value
  {
    QuotesHalved(value);
    BackslashesHalved(value);
  }

  // ---------------------------------------------------------------------------------------------
  // Lines
  // ---------------------------------------------------------------------------------------------

  predicate IsBreak(c: char) {
    var n := c as int;
    10 <= n <= 13 || 28 <= n <= 30 || n == 0x85 || n == 0x2028 || n == 0x2029
  }

  predicate OneLine(s: string) {
    forall i | 0 <= i < |s| :: !IsBreak(s[i])
  }

  /** `splitlines`, with a line begun. */
  function LinesFrom(text: string, current: string): seq<string>
    decreases |text|
  {
    if text == "" then (if current == "" then [] else [current])
    else if IsBreak(text[0]) then
      [current] + LinesFrom(if text[0] == '\r' && |text| > 1 && text[1] == '\n' then text[2..] else text[1..], "")
    else LinesFrom(text[1..], current + [text[0]])
  }

  function Lines(text: string): seq<string> {
    LinesFrom(text, "")
  }

  lemma {:induction false} LinesPass(line: string, rest: string, current: string)
    requires OneLine(line)
    ensures LinesFrom(line + "\n" + rest, current) == [current + line] + Lines(rest)
    decreases |line|
  {
    var text := line + "\n" + rest;
    if line == "" {
      assert text[0] == '\n' && text[1..] == rest && current + line == current;
    } else {
      assert text[0] == line[0] && text[1..] == line[1..] + "\n" + rest;
      LinesPass(line[1..], rest, current + [line[0]]);
      assert current + [line[0]] + line[1..] == current + line;
    }
  }

  lemma {:induction false} LinesOfUnlines(lines: seq<string>)
    requires forall i | 0 <= i < |lines| :: OneLine(lines[i])
    ensures Lines(Unlines(lines)) == lines
  {
    if lines != [] {
      LinesOfUnlines(lines[1..]);
      LinesPass(lines[0], Unlines(lines[1..]), "");
      assert "" + lines[0] == lines[0];
    }
  }

  // ---------------------------------------------------------------------------------------------
  // Reading
  // ---------------------------------------------------------------------------------------------

  function Unquoted(s: string): string {
    if |s| >= 2 && s[0] == s[|s| - 1] && (s[0] == '"' || s[0] == '\'') then Unescape(s[1..|s| - 1]) else s
  }

  function Exported(key: string): string {
    if StartsWith(key, "export ") then Strip(key[7..]) else key
  }

  function ReadLine(raw: string): Option<Setting> {
    var line := Strip(raw);
    if line == "" || line[0] == '#' || '=' !in line then None
    else
      var n := Find(line, '=');
      Some(Setting(Exported(Strip(line[..n])), Unquoted(Strip(line[n + 1..]))))
  }

  /** Later lines win. */
  function ReadLines(lines: seq<string>): map<string, string> {
    if lines == [] then map[]
    else
      var before := ReadLines(lines[..|lines| - 1]);
      match ReadLine(lines[|lines| - 1])
      case None => before
      case Some(Setting(name, value)) => before[name := value]
  }

  method ReadEnvFile(text: string) returns (values: map<string, string>)
    ensures values == ReadLines(Lines(text))
  {
    hide Lines, Exported, Unquoted, Strip, Find;
    values := map[];
    var lines := Lines(text);
    for i := 0 to |lines|
      invariant values == ReadLines(lines[..i])
    {
      assert lines[..i + 1][..i] == lines[..i];
      var line := Strip(lines[i]);
      if line == "" || line[0] == '#' || '=' !in line {
        continue;
      }
      var n := Find(line, '=');
      var key, value := Strip(line[..n]), Strip(line[n + 1..]);
      values := values[Exported(key) := Unquoted(value)];
    }
    assert lines[..|lines|] == lines;
  }

  // ---------------------------------------------------------------------------------------------
  // Writing
  // ---------------------------------------------------------------------------------------------

  function Line(name: string, value: string): string {
    name + "=" + ("\"" + Escape(value) + "\"")
  }

  /** A name that a line can carry. */
  predicate Writable(name: string) {
    OneLine(name) && '=' !in name && Trimmed(name) && !StartsWith(name, "#") && !StartsWith(name, "export ")
  }

  predicate AllWritable(values: map<string, string>) {
    forall name | name in values :: Writable(name) && OneLine(values[name])
  }

  lemma WordIsWritable(name: string)
    requires AllWords(name)
    ensures Writable(name)
  {
    assert name != "" ==> IsWordChar(name[0]) && IsWordChar(name[|name| - 1]);
    assert |name| >= 7 ==> name[..7][6] == name[6];
  }

  lemma {:induction false} EscapeIsOneLine(value: string)
    requires OneLine(value)
    ensures OneLine(Escape(value))
  {
    if value != "" {
      EscapeIsOneLine(value[1..]);
      EscapeCons(value);
    }
  }

  lemma QuotedIsUnquoted(value: string)
    ensures var quoted := "\"" + Escape(value) + "\""; Trimmed(quoted) && Unquoted(quoted) == value
  {
    hide Escape, Unescape;
    var quoted := "\"" + Escape(value) + "\"";
    assert quoted[|quoted| - 1] == '"' && quoted[1..|quoted| - 1] == Escape(value);
    UnescapeOfEscape(value);
  }

  lemma LineParts(name: string, quoted: string)
    requires Writable(name) && |quoted| >= 2 && Trimmed(quoted)
    ensures var line := name + "=" + quoted;
            && Trimmed(line) && line != "" && line[0] != '#' && '=' in line && Find(line, '=') == |name|
            && line[..|name|] == name && line[|name| + 1..] == quoted
  {
    var line := name + "=" + quoted;
    assert line[|name|] == '=' && line[|line| - 1] == quoted[|quoted| - 1];
    assert name != "" ==> line[0] == name[0] && name[..1] == [name[0]];
    FindBehind(name, '=', quoted);
    CutAt(name, '=', quoted);
  }

  lemma WritableIsPlain(name: string)
    requires Writable(name)
    ensures Exported(name) == name && Trimmed(name)
  {
  }

  /** A written line is read back as it was meant, whatever blanks, quotes, backslashes or signs the value holds. */
  lemma ReadOfLine(name: string, value: string)
    requires Writable(name)
    ensures ReadLine(Line(name, value)) == Some(Setting(name, value))
    ensures OneLine(value) ==> OneLine(Line(name, value))
  {
    hide Escape, Unquoted, Exported, Writable, Trimmed, Find, Strip;
    QuotedIsUnquoted(value);
    LineParts(name, "\"" + Escape(value) + "\"");
    WritableIsPlain(name);
    if OneLine(value) {
      EscapeIsOneLine(value);
      WritableIsOneLine(name);
    }
  }

  lemma WritableIsOneLine(name: string)
    requires Writable(name)
    ensures OneLine(name)
  {
  }

  /** A line such as the ones on top of the file; what they say does not matter to the reader. */
  predicate IsRemark(line: string) {
    OneLine(line) && (line == "" || line[0] == '#')
  }

  lemma {:induction false} StripKeepsHead(s: string)
    requires s != "" && !IsSpace(s[0])
    ensures Strip(s) != "" && Strip(s)[0] == s[0]
  {
    if IsSpace(s[|s| - 1]) {
      StripKeepsHead(s[..|s| - 1]);
    }
  }

  lemma {:induction false} RemarksAreSkipped(lines: seq<string>)
    requires forall i | 0 <= i < |lines| :: IsRemark(lines[i])
    ensures ReadLines(lines) == map[]
  {
    if lines != [] {
      assert IsRemark(lines[|lines| - 1]);
      if lines[|lines| - 1] != "" {
        StripKeepsHead(lines[|lines| - 1]);
      }
      RemarksAreSkipped(lines[..|lines| - 1]);
    }
  }

  /** The lines of some of the values, one each. */
  predicate Lists(lines: seq<string>, names: seq<string>, values: map<string, string>) {
    |lines| == |names| && forall i | 0 <= i < |names| :: names[i] in values && lines[i] == Line(names[i], values[names[i]])
  }

  lemma {:induction false} ReadOfListed(head: seq<string>, lines: seq<string>, names: seq<string>, values: map<string, string>)
    requires Lists(lines, names, values) && AllWritable(values) && ReadLines(head) == map[]
    ensures var read := ReadLines(head + lines);
            && (forall name :: name in read <==> name in names)
            && forall name | name in read :: name in values && read[name] == values[name]
    decreases |lines|
  {
    hide ReadLine, Line, Writable;
    if lines == [] {
      assert head + lines == head;
    } else {
      var n := |lines| - 1;
      assert (head + lines)[..|head + lines| - 1] == head + lines[..n];
      ReadOfListed(head, lines[..n], names[..n], values);
      ReadOfLine(names[n], values[names[n]]);
      assert names == names[..n] + [names[n]];
    }
  }

  /** Read back and compared, value by value; the file stands only if nothing differs. */
  method WriteSettingsOverrides(existing: Option<string>, settings: map<string, string>, header: seq<string>)
      returns (text: string, merged: map<string, string>, ok: bool)
    requires forall i | 0 <= i < |header| :: IsRemark(header[i])
    ensures merged == (if existing.Some? then ReadLines(Lines(existing.value)) else map[]) + settings
    ensures ok <==> forall name | name in merged :: name in ReadLines(Lines(text)) && ReadLines(Lines(text))[name] == merged[name]
    ensures AllWritable(merged) ==> ok && ReadLines(Lines(text)) == merged
  {
    hide Lines, Line, ReadLine, Writable;
    merged := map[];
    if existing.Some? {
      merged := ReadEnvFile(existing.value);
    }
    merged := merged + settings;
    var lines, names := [], [];
    var left := merged.Keys;
    while left != {}
      invariant left <= merged.Keys && Lists(lines, names, merged)
      invariant forall name :: name in names <==> name in merged && name !in left
    {
      var name :| name in left;
      lines := lines + [Line(name, merged[name])];
      names := names + [name];
      left := left - {name};
    }
    text := Unlines(header + lines);
    if AllWritable(merged) {
      WrittenReadsBack(lines, names, merged, header);
    }
    var reparsed := ReadEnvFile(text);
    ok := true;
    var unchecked := merged.Keys;
    while unchecked != {}
      invariant unchecked <= merged.Keys
      invariant ok <==> forall name | name in merged && name !in unchecked :: name in reparsed && reparsed[name] == merged[name]
    {
      var name :| name in unchecked;
      ok := ok && name in reparsed && reparsed[name] == merged[name];
      unchecked := unchecked - {name};
    }
  }

  lemma WrittenReadsBack(lines: seq<string>, names: seq<string>, values: map<string, string>, header: seq<string>)
    requires forall i | 0 <= i < |header| :: IsRemark(header[i])
    requires Lists(lines, names, values) && AllWritable(values) && forall name :: name in names <==> name in values
    ensures ReadLines(Lines(Unlines(header + lines))) == values
  {
    hide ReadLine, Line, Writable, Lines, ReadLines, IsRemark;
    RemarksAreSkipped(header);
    var all := header + lines;
    forall i | 0 <= i < |all| ensures OneLine(all[i]) {
      if i >= |header| {
        ReadOfLine(names[i - |header|], values[names[i - |header|]]);
      } else {
        RemarkIsOneLine(header[i]);
      }
    }
    LinesOfUnlines(all);
    ReadOfListed(header, lines, names, values);
  }

  lemma RemarkIsOneLine(line: string)
    requires IsRemark(line)
    ensures OneLine(line)
  {
  }
}
