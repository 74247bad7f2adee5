/** The five operations settings and their one canonical file: lib/palwarden_ops.py. */
module OpsConfig {
  import opened Wrappers
  import opened Text
  import opened Bytes
  import opened JsonString

  const TOKEN_MAX_BYTES := 512

  datatype Key = IdleTimeout | IdleCheckInterval | KnockEnabled | KnockCooldown | KnockToken

  /** The schema order. */
  const KEYS := [IdleTimeout, IdleCheckInterval, KnockEnabled, KnockCooldown, KnockToken]

  datatype Kind = Int(lo: nat, hi: nat) | Bool | Token

  function KindOf(key: Key): Kind {
    match key
    case IdleTimeout => Int(0, 10_080)
    case IdleCheckInterval => Int(1, 3_600)
    case KnockEnabled => Bool
    case KnockCooldown => Int(1, 86_400)
    case KnockToken => Token
  }

  function NameOf(key: Key): string {
    match key
    case IdleTimeout => "IDLE_TIMEOUT"
    case IdleCheckInterval => "IDLE_CHECK_INTERVAL"
    case KnockEnabled => "KNOCK_ENABLED"
    case KnockCooldown => "KNOCK_COOLDOWN"
    case KnockToken => "KNOCK_TOKEN"
  }

  /** What a caller may supply for a setting, and what a setting is in memory (`Other` never is). */
  datatype Value = N(n: int) | B(b: bool) | T(t: CodePoints) | Other

  /** `Unencodable` is Python's UnicodeEncodeError; every other one is a ConfigError. */
  datatype Error =
    | UnknownKey(name: string)
    | NotCanonicalInt(key: Key)
    | OutOfRange(key: Key)
    | NotABool(key: Key)
    | NotAString(key: Key)
    | Unencodable(key: Key)
    | TooLong(key: Key)
    | ControlCharacter(key: Key)
    | EmptyOrBlankLine
    | NotALine(line: nat)
    | Duplicate(key: Key)
    | NotCanonicalJson(key: Key)
    | OutOfOrder

  // ---------------------------------------------------------------------------------------------
  // One value
  // ---------------------------------------------------------------------------------------------

  function Codes(s: string): (t: CodePoints)
    ensures |t| == |s| && forall i | 0 <= i < |s| :: t[i] == s[i] as int
  {
    seq(|s|, i requires 0 <= i < |s| => s[i] as int)
  }

  predicate AllDigits(t: CodePoints) {
    forall i | 0 <= i < |t| :: 48 <= t[i] <= 57
  }

  function Chars(t: CodePoints): (s: string)
    requires AllDigits(t)
    ensures |s| == |t| && forall i | 0 <= i < |t| :: s[i] == t[i] as char
  {
    seq(|t|, i requires 0 <= i < |t| => t[i] as char)
  }

  /** A zero, or digits that do not begin with one. */
  predicate CanonicalInt(t: CodePoints) {
    t != [] && AllDigits(t) && (t[0] == 48 ==> |t| == 1)
  }

  function ValueOf(t: CodePoints): int
    requires AllDigits(t)
  {
    DigitsValue(Chars(t))
  }

  function Utf8Size(t: CodePoints): nat {
    if t == [] then 0
    else (if t[0] < 0x80 then 1 else if t[0] < 0x800 then 2 else if t[0] < 0x1_0000 then 3 else 4) + Utf8Size(t[1..])
  }

  predicate HasSurrogate(t: CodePoints) {
    exists i | 0 <= i < |t| :: Surrogate(t[i])
  }

  predicate IsControl(c: Code) { c < 32 || 127 <= c < 160 }

  predicate HasControl(t: CodePoints) {
    exists i | 0 <= i < |t| :: IsControl(t[i])
  }

  function CanonicalInteger(key: Key, t: CodePoints, lo: nat, hi: nat): Result<CodePoints, Error> {
    if !CanonicalInt(t) then Err(NotCanonicalInt(key))
    else if !(lo <= ValueOf(t) <= hi) then Err(OutOfRange(key))
    else Ok(t)
  }

  /** The string that is stored. */
  function Canonical(key: Key, value: Value): Result<CodePoints, Error> {
    match KindOf(key)
    case Int(lo, hi) =>
      (match value
       case N(n) => CanonicalInteger(key, Codes(Decimal(n)), lo, hi)
       case T(t) => CanonicalInteger(key, t, lo, hi)
       case _ => Err(NotCanonicalInt(key)))
    case Bool =>
      if value.B? then Ok(Codes(if value.b then "true" else "false"))
      else if value == T(Codes("true")) || value == T(Codes("false")) then Ok(value.t)
      else Err(NotABool(key))
    case Token =>
      if !value.T? then Err(NotAString(key))
      else if HasSurrogate(value.t) then Err(Unencodable(key))
      else if Utf8Size(value.t) > TOKEN_MAX_BYTES then Err(TooLong(key))
      else if HasControl(value.t) then Err(ControlCharacter(key))
      else Ok(value.t)
  }

  /** The value in memory. */
  function Typed(key: Key, value: Value): Result<Value, Error> {
    match Canonical(key, value)
    case Err(why) => Err(why)
    case Ok(t) =>
      match KindOf(key)
      case Int(_, _) =>
        CanonicalIsDigits(key, value);
        Ok(N(ValueOf(t)))
      case Bool => Ok(B(t == Codes("true")))
      case Token => Ok(T(t))
  }

  lemma CanonicalIsDigits(key: Key, value: Value)
    requires KindOf(key).Int? && Canonical(key, value).Ok?
    ensures CanonicalInt(Canonical(key, value).value)
  {
  }

  lemma {:induction false} DigitsOfValue(s: string)
    requires s != "" && (forall i | 0 <= i < |s| :: '0' <= s[i] <= '9') && (s[0] == '0' ==> |s| == 1)
    ensures DigitsValue(s) >= 0 && Digits(DigitsValue(s)) == s
    ensures s[0] != '0' ==> DigitsValue(s) > 0
  {
    var n := |s| - 1;
    var d := s[n] as int - 48;
    if n == 0 {
      assert s[..0] == "";
      assert s == [(d + 48) as char];
    } else {
      DigitsOfValue(s[..n]);
      var v := DigitsValue(s[..n]);
      assert (10 * v + d) / 10 == v && (10 * v + d) % 10 == d;
      assert s == s[..n] + [s[n]];
    }
  }

  lemma TextOfValue(t: CodePoints)
    requires CanonicalInt(t)
    ensures ValueOf(t) >= 0 && Codes(Decimal(ValueOf(t))) == t
  {
    DigitsOfValue(Chars(t));
  }

  lemma TruthsDiffer()
    ensures Codes("true") != Codes("false")
  {
    assert |Codes("true")| == 4 && |Codes("false")| == 5;
  }

  /**
   Stored and in-memory form are two views of one value: either is accepted where the other was, and
   both lead to the same stored string and the same value in memory.
   */
  lemma TwoForms(key: Key, value: Value)
    requires Canonical(key, value).Ok?
    ensures var stored := Canonical(key, value).value;
            var held := Typed(key, value).value;
            && Typed(key, value).Ok?
            && Canonical(key, T(stored)) == Ok(stored) && Canonical(key, held) == Ok(stored)
            && Typed(key, T(stored)) == Ok(held) && Typed(key, held) == Ok(held)
  {
    hide Decimal, ValueOf, Codes, CanonicalInt, HasSurrogate, HasControl, Utf8Size;
    TruthsDiffer();
    var stored := Canonical(key, value).value;
    if KindOf(key).Int? {
      CanonicalIsDigits(key, value);
      assert AllDigits(stored) by {
        IntIsDigits(stored);
      }
      TextOfValue(stored);
    }
  }

  lemma IntIsDigits(t: CodePoints)
    ensures CanonicalInt(t) ==> AllDigits(t)
  {
  }

  // ---------------------------------------------------------------------------------------------
  // The file
  // ---------------------------------------------------------------------------------------------

  type Config = map<Key, Value>

  predicate Complete(c: Config) {
    forall k :: k in c
  }

  /** Every key, each with a value that is accepted. */
  predicate Valid(c: Config) {
    Complete(c) && forall k | k in c :: Canonical(k, c[k]).Ok?
  }

  function Stored(c: Config): map<Key, CodePoints>
    requires Valid(c)
  {
    map k | k in c :: Canonical(k, c[k]).value
  }

  function Held(values: map<Key, CodePoints>): Config {
    map k | k in values && Typed(k, T(values[k])).Ok? :: Typed(k, T(values[k])).value
  }

  function LineOf(key: Key, value: CodePoints): string {
    NameOf(key) + "=" + Dumps(value)
  }

  /** All lines, each with its newline. */
  function RenderFrom(values: map<Key, CodePoints>, i: nat): string
    requires i <= 5 && forall k :: k in values
    decreases 5 - i
  {
    if i == 5 then "" else LineOf(KEYS[i], values[KEYS[i]]) + "\n" + RenderFrom(values, i + 1)
  }

  function Render(c: Config): string
    requires Valid(c)
  {
    RenderFrom(Stored(c), 0)
  }

  function LinesOf(text: string): seq<string> {
    var p := Pieces(text);
    if p[|p| - 1] == "" then p[..|p| - 1] else p
  }

  predicate IsNameChar(c: char) { 'A' <= c <= 'Z' || '0' <= c <= '9' || c == '_' }

  predicate IsName(s: string) {
    s != "" && 'A' <= s[0] <= 'Z' && forall i | 0 <= i < |s| :: IsNameChar(s[i])
  }

  function KeyNamed(name: string): Option<Key> {
    if name == "IDLE_TIMEOUT" then Some(IdleTimeout)
    else if name == "IDLE_CHECK_INTERVAL" then Some(IdleCheckInterval)
    else if name == "KNOCK_ENABLED" then Some(KnockEnabled)
    else if name == "KNOCK_COOLDOWN" then Some(KnockCooldown)
    else if name == "KNOCK_TOKEN" then Some(KnockToken)
    else None
  }

  /** One line, given the keys seen before. */
  function ReadLine(line: string, number: nat, before: seq<Key>): Result<(Key, CodePoints), Error> {
    var n := Find(line, '=');
    if n == |line| || !IsName(line[..n]) then Err(NotALine(number))
    else
      match KeyNamed(line[..n])
      case None => Err(UnknownKey(line[..n]))
      case Some(key) =>
        if key in before then Err(Duplicate(key))
        else
          match Loads(line[n + 1..])
          case None => Err(NotCanonicalJson(key))
          case Some(value) => if Dumps(value) != line[n + 1..] then Err(NotCanonicalJson(key)) else Ok((key, value))
  }

  /** The lines up to a place: what was seen, in order. */
  function ReadLines(lines: seq<string>): Result<seq<(Key, CodePoints)>, Error> {
    if lines == [] then Ok([])
    else
      var n := |lines| - 1;
      match ReadLines(lines[..n])
      case Err(why) => Err(why)
      case Ok(seen) =>
        match ReadLine(lines[n], n + 1, Seen(seen))
        case Err(why) => Err(why)
        case Ok(entry) => Ok(seen + [entry])
  }

  function Seen(entries: seq<(Key, CodePoints)>): seq<Key> {
    seq(|entries|, i requires 0 <= i < |entries| => entries[i].0)
  }

  function Check(entries: seq<(Key, CodePoints)>): Option<Error> {
    if entries == [] then None
    else
      var n := |entries| - 1;
      var before := Check(entries[..n]);
      if before.Some? then before
      else
        match Typed(entries[n].0, T(entries[n].1))
        case Err(why) => Some(why)
        case Ok(_) => None
  }

  function Parse(text: string): Result<seq<(Key, CodePoints)>, Error> {
    var lines := LinesOf(text);
    if lines == [] || "" in lines then Err(EmptyOrBlankLine)
    else
      match ReadLines(lines)
      case Err(why) => Err(why)
      case Ok(entries) =>
        if Seen(entries) != KEYS then Err(OutOfOrder)
        else
          match Check(entries)
          case Some(why) => Err(why)
          case None => Ok(entries)
  }

  lemma {:induction false} FirstErrorStands(lines: seq<string>, n: nat)
    requires n <= |lines| && ReadLines(lines[..n]).Err?
    ensures ReadLines(lines) == ReadLines(lines[..n])
    decreases |lines|
  {
    hide ReadLine;
    if n == |lines| {
      assert lines[..n] == lines;
    } else {
      assert lines[..|lines| - 1][..n] == lines[..n];
      FirstErrorStands(lines[..|lines| - 1], n);
    }
  }

  lemma {:induction false} FirstCheckStands(entries: seq<(Key, CodePoints)>, n: nat)
    requires n <= |entries| && Check(entries[..n]).Some?
    ensures Check(entries) == Check(entries[..n])
    decreases |entries|
  {
    hide Typed;
    if n == |entries| {
      assert entries[..n] == entries;
    } else {
      assert entries[..|entries| - 1][..n] == entries[..n];
      FirstCheckStands(entries[..|entries| - 1], n);
    }
  }

  /** `seen` is a dictionary in the order of insertion. */
  method ParseFile(text: string) returns (r: Result<seq<(Key, CodePoints)>, Error>)
    ensures r == Parse(text)
  {
    hide ReadLine, Typed, LinesOf;
    var lines := LinesOf(text);
    if lines == [] || "" in lines {
      return Err(EmptyOrBlankLine);
    }
    var seen := [];
    for i := 0 to |lines|
      invariant ReadLines(lines[..i]) == Ok(seen)
    {
      assert lines[..i + 1][..i] == lines[..i];
      var entry := ReadLine(lines[i], i + 1, Seen(seen));
      if entry.Err? {
        FirstErrorStands(lines, i + 1);
        return Err(entry.error);
      }
      seen := seen + [entry.value];
    }
    assert lines[..|lines|] == lines;
    if Seen(seen) != KEYS {
      return Err(OutOfOrder);
    }
    for i := 0 to |seen|
      invariant Check(seen[..i]) == None
    {
      assert seen[..i + 1][..i] == seen[..i];
      var held := Typed(seen[i].0, T(seen[i].1));
      if held.Err? {
        FirstCheckStands(seen, i + 1);
        return Err(held.error);
      }
    }
    assert seen[..|seen|] == seen;
    return Ok(seen);
  }
}

/** The file format is exact: one text for each configuration, and no other text is read. */
module OpsRoundTrip {
  import opened Wrappers
  import opened Text
  import opened JsonString
  import opened OpsConfig

  // ---------------------------------------------------------------------------------------------
  // Lines
  // ---------------------------------------------------------------------------------------------

  /** A text has these lines exactly if it is these lines, with or without a newline behind the last. */
  lemma LinesBack(text: string)
    ensures LinesOf(text) != [] && "" !in LinesOf(text) ==> text == Unlines(LinesOf(text)) || text + "\n" == Unlines(LinesOf(text))
  {
    var p := Pieces(text);
    UnlinesOfPieces(text);
    if p[|p| - 1] == "" {
      var lines := p[..|p| - 1];
      assert p == lines + [""];
      UnlinesEnd(lines, "");
      assert Unlines(lines) + "" + "\n" == text + "\n";
      assert (Unlines(lines) + "\n")[..|text|] == (text + "\n")[..|text|];
      assert Unlines(lines) == text;
    }
  }

  lemma LinesForth(lines: seq<string>)
    requires lines != [] && forall i | 0 <= i < |lines| :: lines[i] != "" && '\n' !in lines[i]
    ensures var text := Unlines(lines); text != "" && LinesOf(text) == lines && LinesOf(text[..|text| - 1]) == lines
  {
    PiecesOfUnlines(lines);
    assert (lines + [""])[..|lines|] == lines;
  }

  // ---------------------------------------------------------------------------------------------
  // One line
  // ---------------------------------------------------------------------------------------------

  lemma NameRead(key: Key)
    ensures KeyNamed(NameOf(key)) == Some(key) && IsName(NameOf(key)) && '=' !in NameOf(key) && '\n' !in NameOf(key)
  {
    var name := NameOf(key);
    assert forall i | 0 <= i < |name| :: IsNameChar(name[i]);
  }

  lemma NamedBack(name: string)
    ensures KeyNamed(name).Some? ==> NameOf(KeyNamed(name).value) == name
  {
  }

  lemma {:induction false} WrittenIsOneLine(t: CodePoints)
    ensures '\n' !in WriteAll(t)
  {
    hide WriteCode;
    if t != [] {
      CodeIsOneLine(t[0]);
      WrittenIsOneLine(t[1..]);
    }
  }

  lemma CodeIsOneLine(c: Code)
    ensures '\n' !in WriteCode(c)
  {
  }

  lemma NoPair(t: CodePoints)
    requires !HasSurrogate(t)
    ensures Loads(Dumps(t)) == Some(t)
  {
    hide Loads, Dumps;
    LoadsOfDumps(t);
    forall i | 0 <= i < |t| - 1 ensures !(High(t[i]) && Low(t[i + 1])) {
      assert !Surrogate(t[i]);
    }
  }

  lemma LineRead(key: Key, value: CodePoints, number: nat, before: seq<Key>)
    requires !HasSurrogate(value) && key !in before
    ensures ReadLine(LineOf(key, value), number, before) == Ok((key, value))
    ensures '\n' !in LineOf(key, value) && LineOf(key, value) != ""
  {
    hide Loads, WriteAll, NameOf, KeyNamed, IsName;
    var name, line := NameOf(key), LineOf(key, value);
    NameRead(key);
    NoPair(value);
    WrittenIsOneLine(value);
    assert line == name + "=" + Dumps(value);
    assert line[|name|] == '=';
    assert forall i | 0 <= i < |name| :: line[i] == name[i] && name[i] in name;
    assert Find(line, '=') == |name|;
    assert line[..|name|] == name && line[|name| + 1..] == Dumps(value);
  }

  /** A line that is read is the line that would be written. */
  lemma LineBack(line: string, number: nat, before: seq<Key>)
    ensures ReadLine(line, number, before).Ok? ==>
              var (key, value) := ReadLine(line, number, before).value;
              line == LineOf(key, value) && key !in before
  {
    hide Loads, Dumps, NameOf, KeyNamed, IsName;
    var n := Find(line, '=');
    NamedBack(line[..n]);
    if n < |line| {
      assert line == line[..n] + "=" + line[n + 1..];
    }
  }

  // ---------------------------------------------------------------------------------------------
  // All lines
  // ---------------------------------------------------------------------------------------------

  function LineTexts(entries: seq<(Key, CodePoints)>): seq<string> {
    seq(|entries|, i requires 0 <= i < |entries| => LineOf(entries[i].0, entries[i].1))
  }

  predicate Readable(entries: seq<(Key, CodePoints)>) {
    && (forall i | 0 <= i < |entries| :: !HasSurrogate(entries[i].1))
    && forall i, j | 0 <= i < j < |entries| :: entries[i].0 != entries[j].0
  }

  lemma {:induction false} LinesRead(entries: seq<(Key, CodePoints)>)
    requires Readable(entries)
    ensures ReadLines(LineTexts(entries)) == Ok(entries)
    ensures forall i | 0 <= i < |entries| :: LineTexts(entries)[i] != "" && '\n' !in LineTexts(entries)[i]
  {
    hide ReadLine, LineOf, HasSurrogate;
    if entries != [] {
      var n := |entries| - 1;
      assert LineTexts(entries)[..n] == LineTexts(entries[..n]);
      LinesRead(entries[..n]);
      LineRead(entries[n].0, entries[n].1, n + 1, Seen(entries[..n]));
      assert entries == entries[..n] + [entries[n]];
      forall i | 0 <= i < |entries| ensures LineTexts(entries)[i] != "" && '\n' !in LineTexts(entries)[i] {
        assert i < n ==> LineTexts(entries)[i] == LineTexts(entries[..n])[i];
      }
    }
  }

  lemma {:induction false} LinesWritten(lines: seq<string>)
    ensures ReadLines(lines).Ok? ==> lines == LineTexts(ReadLines(lines).value)
  {
    hide ReadLine, LineOf;
    if lines != [] && ReadLines(lines).Ok? {
      var n := |lines| - 1;
      LinesWritten(lines[..n]);
      LineBack(lines[n], n + 1, Seen(ReadLines(lines[..n]).value));
      assert lines == lines[..n] + [lines[n]];
    }
  }

  // ---------------------------------------------------------------------------------------------
  // The file
  // ---------------------------------------------------------------------------------------------

  /** A configuration as the parser returns it. */
  function Entries(values: map<Key, CodePoints>): seq<(Key, CodePoints)>
    requires forall k :: k in values
  {
    [(IdleTimeout, values[IdleTimeout]), (IdleCheckInterval, values[IdleCheckInterval]), (KnockEnabled, values[KnockEnabled]),
     (KnockCooldown, values[KnockCooldown]), (KnockToken, values[KnockToken])]
  }

  lemma RenderIsUnlines(values: map<Key, CodePoints>)
    requires forall k :: k in values
    ensures RenderFrom(values, 0) == Unlines(LineTexts(Entries(values)))
  {
    hide LineOf;
    RenderRest(values, 0);
    assert LineTexts(Entries(values))[0..] == LineTexts(Entries(values));
  }

  lemma {:induction false} RenderRest(values: map<Key, CodePoints>, i: nat)
    requires i <= 5 && forall k :: k in values
    ensures RenderFrom(values, i) == Unlines(LineTexts(Entries(values))[i..])
    decreases 5 - i
  {
    hide LineOf;
    var lines := LineTexts(Entries(values));
    if i < 5 {
      RenderRest(values, i + 1);
      assert lines[i..][0] == LineOf(KEYS[i], values[KEYS[i]]);
      assert lines[i..][1..] == lines[i + 1..];
    }
  }

  lemma {:induction false} AllChecked(entries: seq<(Key, CodePoints)>)
    ensures Check(entries).None? <==> forall i | 0 <= i < |entries| :: Typed(entries[i].0, T(entries[i].1)).Ok?
  {
    hide Typed;
    if entries != [] {
      AllChecked(entries[..|entries| - 1]);
    }
  }

  lemma CanonicalHasNoSurrogate(key: Key, value: Value)
    requires Canonical(key, value).Ok?
    ensures !HasSurrogate(Canonical(key, value).value)
  {
    match KindOf(key)
    case Int(lo, hi) => CanonicalIsDigits(key, value);
    case Bool =>
    case Token =>
  }

  lemma EntriesReadable(c: Config)
    requires Valid(c)
    ensures Readable(Entries(Stored(c)))
  {
    hide Canonical, HasSurrogate;
    forall k: Key ensures !HasSurrogate(Stored(c)[k]) {
      CanonicalHasNoSurrogate(k, c[k]);
    }
  }

  lemma EntriesTyped(c: Config)
    requires Valid(c)
    ensures forall k: Key :: k in Stored(c) && Typed(k, T(Stored(c)[k])) == Typed(k, c[k]) && Typed(k, c[k]).Ok?
  {
    hide Canonical, Typed;
    forall k: Key ensures k in Stored(c) && Typed(k, T(Stored(c)[k])) == Typed(k, c[k]) && Typed(k, c[k]).Ok? {
      TwoForms(k, c[k]);
    }
  }

  function WithoutLast(s: string): string {
    if s == "" then "" else s[..|s| - 1]
  }

  /** What is rendered is read, with or without its last newline, as exactly the stored values. */
  lemma ParseOfRender(c: Config)
    requires Valid(c)
    ensures Parse(Render(c)) == Ok(Entries(Stored(c))) && Parse(WithoutLast(Render(c))) == Ok(Entries(Stored(c)))
  {
    hide ReadLines, LinesOf, LineOf, Typed, Canonical, Readable, Unlines, LineTexts;
    var entries := Entries(Stored(c));
    EntriesReadable(c);
    EntriesTyped(c);
    LinesRead(entries);
    LineTextsLength(entries);
    LinesForth(LineTexts(entries));
    RenderIsUnlines(Stored(c));
    AllChecked(entries);
    assert Seen(entries) == KEYS;
  }

  lemma LineTextsLength(entries: seq<(Key, CodePoints)>)
    ensures |LineTexts(entries)| == |entries|
  {
  }

  /** And the stored values stand for the values in memory. */
  lemma HeldOfStored(c: Config, k: Key)
    requires Valid(c)
    ensures k in Held(Stored(c)) && Typed(k, c[k]) == Ok(Held(Stored(c))[k])
  {
    hide Typed, Canonical;
    EntriesTyped(c);
  }

  /** And nothing else is read: an accepted text is the rendering of what it is read as, but for the last newline. */
  lemma RenderOfParse(text: string)
    requires Parse(text).Ok?
    ensures exists c: Config :: Valid(c) && Parse(text) == Ok(Entries(Stored(c))) && (text == Render(c) || text + "\n" == Render(c))
  {
    hide ReadLines, LinesOf, LineOf, Typed, Canonical, Unlines;
    var entries := Parse(text).value;
    LinesBack(text);
    LinesWritten(LinesOf(text));
    AllChecked(entries);
    FiveEntries(entries);
    var c := Held5(entries);
    assert Valid(c) && Entries(Stored(c)) == entries;
    RenderIsUnlines(Stored(c));
  }

  lemma FiveEntries(entries: seq<(Key, CodePoints)>)
    requires Seen(entries) == KEYS && forall i | 0 <= i < |entries| :: Typed(entries[i].0, T(entries[i].1)).Ok?
    ensures Valid(Held5(entries)) && Entries(Stored(Held5(entries))) == entries
  {
    hide Typed, Canonical;
    assert |entries| == |Seen(entries)| == 5;
    assert forall i | 0 <= i < 5 :: entries[i].0 == Seen(entries)[i] == KEYS[i];
    var c := Held5(entries);
    forall i | 0 <= i < 5 ensures Canonical(KEYS[i], T(entries[i].1)) == Ok(entries[i].1) {
      TypedNeedsCanonical(KEYS[i], entries[i].1);
    }
    assert KEYS[0] == IdleTimeout && KEYS[1] == IdleCheckInterval && KEYS[2] == KnockEnabled && KEYS[3] == KnockCooldown
           && KEYS[4] == KnockToken;
    forall k: Key ensures k in c && Canonical(k, c[k]).Ok? {
      AnyKey(k);
    }
    assert forall i | 0 <= i < 5 :: Entries(Stored(c))[i] == entries[i];
  }

  lemma AnyKey(k: Key)
    ensures k == IdleTimeout || k == IdleCheckInterval || k == KnockEnabled || k == KnockCooldown || k == KnockToken
  {
  }

  lemma TypedNeedsCanonical(key: Key, t: CodePoints)
    ensures Typed(key, T(t)).Ok? ==> Canonical(key, T(t)) == Ok(t)
  {
  }

  function Held5(entries: seq<(Key, CodePoints)>): Config {
    if |entries| == 5 then
      map[IdleTimeout := T(entries[0].1), IdleCheckInterval := T(entries[1].1), KnockEnabled := T(entries[2].1),
          KnockCooldown := T(entries[3].1), KnockToken := T(entries[4].1)]
    else map[]
  }

  /** Two valid configurations have the same file exactly if they hold the same values. */
  lemma OneTextEach(c: Config, d: Config)
    requires Valid(c) && Valid(d)
    ensures Render(c) == Render(d) <==> forall k: Key :: Typed(k, c[k]) == Typed(k, d[k])
  {
    hide Parse, RenderFrom, Typed, Canonical;
    ParseOfRender(c);
    ParseOfRender(d);
    EntriesTyped(c);
    EntriesTyped(d);
    if Render(c) == Render(d) {
      var a, b := Entries(Stored(c)), Entries(Stored(d));
      assert a == b;
      assert a[0] == b[0] && a[1] == b[1] && a[2] == b[2] && a[3] == b[3] && a[4] == b[4];
      forall k: Key ensures Typed(k, c[k]) == Typed(k, d[k]) {
        AnyKey(k);
        assert Stored(c)[k] == Stored(d)[k];
      }
    }
    if forall k: Key :: Typed(k, c[k]) == Typed(k, d[k]) {
      forall k: Key ensures Stored(c)[k] == Stored(d)[k] {
        TwoForms(k, c[k]);
        TwoForms(k, d[k]);
      }
      assert Stored(c) == Stored(d);
    }
  }
}
