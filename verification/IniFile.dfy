/** The configuration file on disk: read through newline translation, searched line by line, and written back whole. */
module IniFile {
  import opened Wrappers
  import opened Text
  import opened IniConfig
  import opened IniLaws

  // ---------------------------------------------------------------------------------------------
  // Reading and writing
  // ---------------------------------------------------------------------------------------------

  /** Universal newlines: what a reader in text mode sees of a file. */
  function Translate(disk: string): string
    decreases |disk|
  {
    if disk == "" then ""
    else if disk[0] == '\r' then "\n" + Translate(if |disk| > 1 && disk[1] == '\n' then disk[2..] else disk[1..])
    else [disk[0]] + Translate(disk[1..])
  }

  predicate Unbroken(s: string) {
    forall i | 0 <= i < |s| :: s[i] != '\n' && s[i] != '\r'
  }

  /** The pieces with a newline between each two. */
  function JoinLines(lines: seq<string>): string {
    var all := Unlines(lines);
    if all == "" then "" else all[..|all| - 1]
  }

  const OPENING := "OptionSettings=("

  function WithoutBlanks(line: string): string {
    if line != "" && (line[|line| - 1] == ' ' || line[|line| - 1] == '\t') then WithoutBlanks(line[..|line| - 1]) else line
  }

  /** What stands between the parentheses, up to the last one. */
  function BodyOf(line: string): Option<string> {
    var t := WithoutBlanks(line);
    if |t| > |OPENING| && StartsWith(t, OPENING) && t[|t| - 1] == ')' then Some(t[|OPENING|..|t| - 1]) else None
  }

  function SettingsLine(body: string): string {
    OPENING + body + ")"
  }

  /** The first line that holds the settings. */
  function Where(lines: seq<string>): (i: Option<nat>)
    ensures i.Some? ==> i.value < |lines| && BodyOf(lines[i.value]).Some? && forall j | 0 <= j < i.value :: BodyOf(lines[j]).None?
    ensures i.None? ==> forall j | 0 <= j < |lines| :: BodyOf(lines[j]).None?
  {
    if lines == [] then None
    else if BodyOf(lines[0]).Some? then Some(0)
    else
      var rest := Where(lines[1..]);
      if rest.Some? then Some(rest.value + 1) else None
  }

  function LinesOn(disk: string): seq<string> {
    Pieces(Translate(disk))
  }

  /** The settings that a run finds. */
  function BodyOn(disk: string): Option<string> {
    var i := Where(LinesOn(disk));
    if i.Some? then BodyOf(LinesOn(disk)[i.value]) else None
  }

  /** One run. The file is only written if something changed; without a settings line the call fails. */
  function ApplyFile(disk: string, settings: seq<Setting>): Option<string> {
    var lines := LinesOn(disk);
    match Where(lines)
    case None => None
    case Some(i) =>
      var body := BodyOf(lines[i]).value;
      Some(if Changed(Split(body), settings) then JoinLines(lines[i := SettingsLine(ApplyBody(body, settings))]) else disk)
  }

  // ---------------------------------------------------------------------------------------------
  // Lines
  // ---------------------------------------------------------------------------------------------

  lemma {:induction false} TranslatedHasNoReturns(disk: string)
    ensures '\r' !in Translate(disk)
    ensures '\r' !in disk ==> Translate(disk) == disk
    decreases |disk|
  {
    if disk != "" {
      TranslatedHasNoReturns(disk[1..]);
      if disk[0] == '\r' && |disk| > 1 && disk[1] == '\n' {
        TranslatedHasNoReturns(disk[2..]);
      }
      assert disk == [disk[0]] + disk[1..];
    }
  }

  lemma {:induction false} PiecesAreOf(text: string)
    ensures forall i, c | 0 <= i < |Pieces(text)| && c in Pieces(text)[i] :: c in text
  {
    if text != "" {
      PiecesAreOf(text[1..]);
      var rest := Pieces(text[1..]);
      assert forall i | 0 < i < |rest| :: rest[1..][i - 1] == rest[i];
      assert text[0] in text && forall c | c in text[1..] :: c in text;
    }
  }

  lemma LinesAreUnbroken(disk: string)
    ensures forall i | 0 <= i < |LinesOn(disk)| :: Unbroken(LinesOn(disk)[i])
  {
    TranslatedHasNoReturns(disk);
    PiecesAreOf(Translate(disk));
    var lines := LinesOn(disk);
    forall i, k | 0 <= i < |lines| && 0 <= k < |lines[i]| ensures lines[i][k] != '\n' && lines[i][k] != '\r' {
      assert lines[i][k] in lines[i];
    }
  }

  lemma {:induction false} WithoutBlanksIsPrefix(line: string)
    ensures |WithoutBlanks(line)| <= |line| && WithoutBlanks(line) == line[..|WithoutBlanks(line)|]
  {
    if line != "" && (line[|line| - 1] == ' ' || line[|line| - 1] == '\t') {
      WithoutBlanksIsPrefix(line[..|line| - 1]);
    }
  }

  lemma BodyOnIsUnbroken(disk: string)
    ensures BodyOn(disk).Some? ==> Unbroken(BodyOn(disk).value)
  {
    LinesAreUnbroken(disk);
    var lines := LinesOn(disk);
    if Where(lines).Some? {
      WithoutBlanksIsPrefix(lines[Where(lines).value]);
    }
  }

  lemma {:induction false} UnlinesHasNoReturns(lines: seq<string>)
    requires forall i | 0 <= i < |lines| :: Unbroken(lines[i])
    ensures '\r' !in Unlines(lines)
  {
    if lines != [] {
      UnlinesHasNoReturns(lines[1..]);
    }
  }

  /** Unbroken lines come back from disk as they were. */
  lemma LinesOfJoined(lines: seq<string>)
    requires lines != [] && forall i | 0 <= i < |lines| :: Unbroken(lines[i])
    ensures LinesOn(JoinLines(lines)) == lines
  {
    PiecesOfUnlines(lines);
    UnlinesHasNoReturns(lines);
    TranslatedHasNoReturns(JoinLines(lines));
  }

  lemma BodyOfSettingsLine(body: string)
    ensures BodyOf(SettingsLine(body)) == Some(body)
  {
    var line := SettingsLine(body);
    assert line[|line| - 1] == ')';
    assert line[..|OPENING|] == OPENING;
    assert line[|OPENING|..|line| - 1] == body;
  }

  lemma WhereAgain(lines: seq<string>, body: string)
    requires Where(lines).Some?
    ensures Where(lines[Where(lines).value := SettingsLine(body)]) == Where(lines)
  {
    hide BodyOf;
    BodyOfSettingsLine(body);
    var i := Where(lines).value;
    var next := lines[i := SettingsLine(body)];
    assert BodyOf(next[i]).Some?;
  }

  lemma SettingsLineUnbroken(body: string)
    ensures Unbroken(SettingsLine(body)) <==> Unbroken(body)
  {
    var line := SettingsLine(body);
    assert forall i | 0 <= i < |body| :: line[|OPENING| + i] == body[i];
    assert forall i | 0 <= i < |OPENING| :: line[i] == OPENING[i] && OPENING[i] != '\n' && OPENING[i] != '\r';
  }

  // ---------------------------------------------------------------------------------------------
  // Values with line breaks
  // ---------------------------------------------------------------------------------------------

  lemma {:induction false} EscapeUnbroken(value: string)
    ensures Unbroken(Escape(value)) <==> Unbroken(value)
  {
    hide Escape;
    if value == "" {
      NothingEscaped();
    } else {
      EscapeUnbroken(value[1..]);
      EscapeCons(value);
      UnbrokenConcat(EscapeChar(value[0]), Escape(value[1..]));
      UnbrokenConcat([value[0]], value[1..]);
      assert value == [value[0]] + value[1..];
      UnbrokenChar(value[0]);
    }
  }

  lemma NothingEscaped()
    ensures Escape("") == ""
  {
  }

  lemma UnbrokenChar(c: char)
    ensures Unbroken(EscapeChar(c)) <==> Unbroken([c])
  {
    assert [c][0] == c;
    assert EscapeChar(c)[|EscapeChar(c)| - 1] == c;
  }

  lemma UnbrokenConcat(a: string, b: string)
    ensures Unbroken(a + b) <==> Unbroken(a) && Unbroken(b)
  {
    if Unbroken(a + b) {
      assert forall i | 0 <= i < |a| :: (a + b)[i] == a[i];
      assert forall i | 0 <= i < |b| :: (a + b)[|a| + i] == b[i];
    }
  }

  /** Only a quoted value can carry a break into the file. */
  lemma RenderedIsUnbroken(shape: Shape, value: string)
    requires Render(shape, value).Some? && shape != Quoted
    ensures Unbroken(Render(shape, value).value)
  {
    hide Lowered, IsNumber, Escape;
    var candidate := Strip(value);
    if shape == Number {
      NumberChars(candidate);
    }
  }

  lemma QuotedUnbroken(value: string)
    ensures Unbroken("\"" + Escape(value) + "\"") <==> Unbroken(value)
  {
    hide Escape;
    EscapeUnbroken(value);
    UnbrokenConcat("\"" + Escape(value), "\"");
    UnbrokenConcat("\"", Escape(value));
  }

  /** A value with a line break that settles in a quoted part: the last one meant for it. */
  predicate Breaking(raw: string, values: seq<string>) {
    values != [] && ShapeOf(raw).Quoted? && !Unbroken(values[|values| - 1])
  }

  lemma {:induction false} SettledUnbroken(raw: string, values: seq<string>)
    requires Unbroken(raw)
    ensures Unbroken(Settled(raw, values)) <==> !Breaking(raw, values)
  {
    hide ShapeOf, Unbroken;
    if values != [] {
      var n := |values| - 1;
      var before := Settled(raw, values[..n]);
      BooleanStays(raw, values[..n]);
      SettledUnbroken(raw, values[..n]);
      if ShapeOf(before).Quoted? {
        QuotedUnbroken(values[n]);
      } else if Render(ShapeOf(before), values[n]).Some? {
        RenderedIsUnbroken(ShapeOf(before), values[n]);
      }
    }
  }

  lemma KeyUnbroken(part: string)
    requires Unbroken(part)
    ensures Unbroken(RawOf(part)) && (KeyOf(part).Some? ==> Unbroken(KeyOf(part).value))
  {
    var n := Find(part, '=');
    if n < |part| {
      var key := Strip(part[..n]);
      forall i | 0 <= i < |key| ensures key[i] != '\n' && key[i] != '\r' {
        assert key[i] in part[..n];
      }
    }
  }

  lemma PutAllUnbroken(part: string, values: seq<string>)
    requires Unbroken(part) && KeyOf(part).Some?
    ensures Unbroken(PutAll(part, values)) <==> !Breaking(RawOf(part), values)
  {
    hide KeyOf, RawOf, PutAll, Settled, Breaking, Unbroken;
    KeyUnbroken(part);
    PutAllSettles(part, values);
    SettledUnbroken(RawOf(part), values);
    var key, raw := KeyOf(part).value, Settled(RawOf(part), values);
    UnbrokenConcat(key + "=", raw);
    UnbrokenConcat(key, "=");
    EqualsUnbroken();
  }

  lemma EqualsUnbroken()
    ensures Unbroken("=") && Unbroken(",")
  {
  }

  lemma {:induction false} JoinUnbroken(parts: seq<string>)
    ensures Unbroken(Join(parts)) <==> forall p | 0 <= p < |parts| :: Unbroken(parts[p])
  {
    hide Unbroken;
    if parts == [] {
      NothingUnbroken();
    } else if |parts| > 1 {
      JoinUnbroken(parts[1..]);
      UnbrokenConcat(parts[0] + ",", Join(parts[1..]));
      UnbrokenConcat(parts[0], ",");
      EqualsUnbroken();
      assert forall p | 0 < p < |parts| :: parts[p] == parts[1..][p - 1];
      assert forall p | 0 <= p < |parts| - 1 :: parts[1..][p] == parts[p + 1];
    }
  }

  lemma NothingUnbroken()
    ensures Unbroken("")
  {
  }

  lemma PartsUnbroken(body: string)
    requires Unbroken(body)
    ensures forall p | 0 <= p < |Split(body)| :: Unbroken(Split(body)[p])
  {
    hide Split, Join;
    JoinOfSplit(body);
    JoinUnbroken(Split(body));
  }

  /** Does the last value meant for some quoted part hold a line break? */
  predicate Breaks(parts: seq<string>, settings: seq<Setting>) {
    exists p | 0 <= p < |parts| :: Breaking(RawOf(parts[p]), Meant(Keys(parts), settings, p))
  }

  lemma BodyUnbroken(body: string, settings: seq<Setting>)
    requires Unbroken(body)
    ensures Unbroken(ApplyBody(body, settings)) <==> !Breaks(Split(body), settings)
  {
    hide Split, Join, ApplyAll, PutAll, Meant, Keys, KeyOf, RawOf, Unbroken, Changed;
    var parts := Split(body);
    PartsUnbroken(body);
    forall p | 0 <= p < |parts|
      ensures Unbroken(ApplyAll(parts, settings)[p]) <==> !Breaking(RawOf(parts[p]), Meant(Keys(parts), settings, p))
    {
      PartsAreIndependent(parts, settings, p);
      KeyAt(parts, p);
      if KeyOf(parts[p]).Some? {
        PutAllUnbroken(parts[p], Meant(Keys(parts), settings, p));
      } else {
        NothingMeant(Keys(parts), settings, p);
        PutNone(parts[p]);
      }
    }
    JoinUnbroken(ApplyAll(parts, settings));
    if !Changed(parts, settings) {
      UnchangedIsSame(parts, settings);
    }
  }

  lemma KeyAt(parts: seq<string>, p: nat)
    requires p < |parts|
    ensures |Keys(parts)| == |parts| && Keys(parts)[p] == KeyOf(parts[p])
  {
  }

  // ---------------------------------------------------------------------------------------------
  // A second run
  // ---------------------------------------------------------------------------------------------

  /** A written file, read again. */
  lemma WrittenIsFound(disk: string, body: string)
    requires BodyOn(disk).Some? && Unbroken(body)
    ensures var lines := LinesOn(disk);
            var i := Where(lines).value;
            var next := JoinLines(lines[i := SettingsLine(body)]);
            LinesOn(next) == lines[i := SettingsLine(body)] && Where(LinesOn(next)) == Some(i) && BodyOn(next) == Some(body)
  {
    hide LinesOn, JoinLines, SettingsLine, BodyOf, Unbroken;
    var lines := LinesOn(disk);
    var i := Where(lines).value;
    var next := lines[i := SettingsLine(body)];
    LinesAreUnbroken(disk);
    SettingsLineUnbroken(body);
    forall j | 0 <= j < |next| ensures Unbroken(next[j]) {
    }
    LinesOfJoined(next);
    WhereAgain(lines, body);
    BodyOfSettingsLine(body);
  }

  /**
   The next run finds the settings as this one left them exactly if the last value meant for every
   quoted part is free of line breaks. A break splits the settings line in two.
   */
  lemma FindsItsOwnWork(disk: string, settings: seq<Setting>)
    requires BodyOn(disk).Some?
    ensures var body := BodyOn(disk).value;
            BodyOn(ApplyFile(disk, settings).value) == Some(ApplyBody(body, settings)) <==> !Breaks(Split(body), settings)
  {
    hide BodyOf, LinesOn, JoinLines, SettingsLine, Split, ApplyAll, Changed, Breaks, Unbroken;
    var body := BodyOn(disk).value;
    BodyOnIsUnbroken(disk);
    BodyUnbroken(body, settings);
    var once := ApplyFile(disk, settings).value;
    BodyOnIsUnbroken(once);
    if Changed(Split(body), settings) && Unbroken(ApplyBody(body, settings)) {
      WrittenIsFound(disk, ApplyBody(body, settings));
    }
  }

  /**
   Where that holds, no line but the settings line is other than it was read, and a second run leaves
   the file as it is except in the case of `ApplyIsIdempotent`.
   */
  lemma FileIsIdempotent(disk: string, settings: seq<Setting>)
    requires AllIdentifiers(settings) && BodyOn(disk).Some? && !Breaks(Split(BodyOn(disk).value), settings)
    ensures var lines, once := LinesOn(disk), ApplyFile(disk, settings).value;
            var i := Where(lines).value;
            |LinesOn(once)| == |lines| && forall j | 0 <= j < |lines| && j != i :: LinesOn(once)[j] == lines[j]
    ensures var parts, once := Split(BodyOn(disk).value), ApplyFile(disk, settings).value;
            ApplyFile(once, settings) == Some(once)
            <==> !(EndsEmpty(parts) && exists i | 0 <= i < |settings| :: Overridden(parts, settings, i))
  {
    hide BodyOf, LinesOn, JoinLines, SettingsLine, Split, Join, ApplyAll, Changed, Breaks, Overridden, Unbroken;
    var body := BodyOn(disk).value;
    ApplyIsIdempotent(body, settings);
    if Changed(Split(body), settings) {
      SecondRun(disk, settings);
    }
  }

  lemma SecondRun(disk: string, settings: seq<Setting>)
    requires AllIdentifiers(settings)
    requires BodyOn(disk).Some? && !Breaks(Split(BodyOn(disk).value), settings) && Changed(Split(BodyOn(disk).value), settings)
    ensures var lines, once := LinesOn(disk), ApplyFile(disk, settings).value;
            |LinesOn(once)| == |lines| && forall j | 0 <= j < |lines| && j != Where(lines).value :: LinesOn(once)[j] == lines[j]
    ensures var body, once := BodyOn(disk).value, ApplyFile(disk, settings).value;
            ApplyFile(once, settings) == Some(once) <==> ApplyBody(ApplyBody(body, settings), settings) == ApplyBody(body, settings)
  {
    hide BodyOf, LinesOn, JoinLines, SettingsLine, Split, Join, ApplyAll, Changed, Breaks, Unbroken;
    var body := BodyOn(disk).value;
    BodyOnIsUnbroken(disk);
    BodyUnbroken(body, settings);
    var left := ApplyBody(body, settings);
    WrittenIsFound(disk, left);
    var once := ApplyFile(disk, settings).value;
    var lines, i := LinesOn(once), Where(LinesOn(once)).value;
    if Changed(Split(left), settings) {
      var again := ApplyBody(left, settings);
      SecondTime(body, settings);
      PrefixUnbroken(left, |again|);
      if again == left {
        assert lines[i := SettingsLine(left)] == lines;
      } else {
        WrittenIsFound(once, again);
      }
    }
  }

  lemma PrefixUnbroken(s: string, n: nat)
    requires Unbroken(s) && n <= |s|
    ensures Unbroken(s[..n])
  {
  }

  // ---------------------------------------------------------------------------------------------
  // A run whose work the next one cannot find
  // ---------------------------------------------------------------------------------------------

  function QuotedPart(value: string): string {
    Part("A", "\"" + Escape(value) + "\"")
  }

  lemma QuotedPartReads(value: string)
    ensures KeyOf(QuotedPart(value)) == Some("A") && RawOf(QuotedPart(value)) == "\"" + Escape(value) + "\""
    ensures ShapeOf(RawOf(QuotedPart(value))) == Quoted && Split(QuotedPart(value)) == [QuotedPart(value)]
    ensures Unbroken(QuotedPart(value)) <==> Unbroken(value)
  {
    hide Escape, ShapeOf, Run;
    var raw := "\"" + Escape(value) + "\"";
    PartReads("A", raw);
    QuotedKeeps(value);
    PartCloses("A", raw);
    assert Join([QuotedPart(value)]) == QuotedPart(value);
    SplitOfJoin([QuotedPart(value)]);
    QuotedUnbroken(value);
    UnbrokenConcat("A=", raw);
    assert Unbroken("A=");
  }

  lemma OneKey(part: string)
    requires KeyOf(part) == Some("A")
    ensures Target(Keys([part]), "A") == Some(0)
  {
    hide Normalise, Exception, Ignored;
    FoldedAlike();
    var keys := Keys([part]);
    assert keys[0] == Some("A");
    assert Answers(keys[0], Normalise("A"));
    FoldedIsFirst(keys, Normalise("A"));
    assert Position(keys, "A") == Some(0);
  }

  /** A quoted value is replaced by one that has a line break where it had none. */
  lemma QuotedIsReplaced(before: string, value: string)
    requires Unbroken(before) && !Unbroken(value)
    ensures ApplyBody(QuotedPart(before), [Setting("A", value)]) == QuotedPart(value) && Changed(Split(QuotedPart(before)), [Setting("A", value)])
  {
    hide Escape, ShapeOf, KeyOf, RawOf, Split, Unbroken, Target, Keys, Part;
    var part, setting := QuotedPart(before), Setting("A", value);
    QuotedPartReads(before);
    QuotedPartReads(value);
    QuotedUnbroken(before);
    QuotedUnbroken(value);
    OneKey(part);
    assert [setting][..0] == [];
    assert ApplyAll([part], []) == [part];
    assert Rewrites(part, value) && Put(part, value) == QuotedPart(value);
    assert Hit([part], setting) && Apply([part], setting) == [QuotedPart(value)];
    assert ApplyAll([part], [setting]) == [QuotedPart(value)];
    assert Changed([part], [setting]);
    assert Join([QuotedPart(value)]) == QuotedPart(value);
  }

  lemma OneLineFile(body: string)
    requires Unbroken(body)
    ensures LinesOn(SettingsLine(body)) == [SettingsLine(body)] && Where([SettingsLine(body)]) == Some(0) && BodyOn(SettingsLine(body)) == Some(body)
    ensures JoinLines([SettingsLine(body)]) == SettingsLine(body)
  {
    hide BodyOf, SettingsLine;
    var line := SettingsLine(body);
    SettingsLineUnbroken(body);
    BodyOfSettingsLine(body);
    OneLineJoined(line);
    LinesOfJoined([line]);
  }

  lemma OneLineJoined(line: string)
    ensures JoinLines([line]) == line
  {
    assert [line][1..] == [];
    assert Unlines([line]) == line + "\n";
  }

  lemma TwoHalves()
    ensures SettingsLine(QuotedPart("a\nb")) == (OPENING + "A=\"a") + "\n" + "b\")"
  {
    var value := "a\nb";
    assert value[1..] == "\nb" && "\nb"[1..] == "b" && "b"[1..] == "";
    EscapeCons(value);
    EscapeCons("\nb");
    EscapeCons("b");
    NothingEscaped();
    hide Escape;
    assert Escape(value) == "a\nb";
  }

  lemma NeitherHalfIsFound()
    ensures BodyOf(OPENING + "A=\"a").None? && BodyOf("b\")").None?
  {
    var line := OPENING + "A=\"a";
    assert line[|line| - 1] == 'a';
    assert WithoutBlanks(line) == line;
    assert WithoutBlanks("b\")") == "b\")";
  }

  lemma SplitInTwo()
    ensures Where(LinesOn(SettingsLine(QuotedPart("a\nb")))).None?
  {
    hide SettingsLine, QuotedPart, BodyOf;
    var first, second := OPENING + "A=\"a", "b\")";
    TwoHalves();
    var disk := SettingsLine(QuotedPart("a\nb"));
    assert '\r' !in first && '\n' !in first && '\r' !in second && '\n' !in second;
    TranslatedHasNoReturns(disk);
    PiecesPass(first, second);
    PiecesPass(second, "");
    assert LinesOn(disk) == [first, second];
    NeitherHalfIsFound();
    assert [first, second][1..] == [second];
  }

  lemma BrokenAndUnbroken()
    ensures Unbroken("x") && !Unbroken("a\nb")
  {
    assert "a\nb"[1] == '\n';
  }

  lemma OnlyLineReplaced(line: string, other: string)
    ensures [line][0 := other] == [other]
  {
  }

  /** A value with a line break: the first run reports success, and the next finds no settings line at all. */
  lemma LineBreakLosesTheSettings()
    ensures var disk, settings := SettingsLine(QuotedPart("x")), [Setting("A", "a\nb")];
            && BodyOn(disk) == Some(QuotedPart("x"))
            && ApplyFile(disk, settings) == Some(SettingsLine(QuotedPart("a\nb")))
            && ApplyFile(SettingsLine(QuotedPart("a\nb")), settings) == None
  {
    hide QuotedPart, SettingsLine, BodyOf, LinesOn, JoinLines, Split, ApplyBody, Changed, Unbroken, Where;
    var body, line := QuotedPart("x"), SettingsLine(QuotedPart("a\nb"));
    BrokenAndUnbroken();
    QuotedPartReads("x");
    OneLineFile(body);
    QuotedIsReplaced("x", "a\nb");
    OnlyLineReplaced(SettingsLine(body), line);
    OneLineJoined(line);
    SplitInTwo();
  }
}
