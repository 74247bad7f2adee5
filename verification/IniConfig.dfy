/** Applying settings to the OptionSettings line: bin/palworld-config-parser. */
module IniConfig {
  import opened Wrappers
  import opened Text

  // ---------------------------------------------------------------------------------------------
  // Splitting on top-level commas
  // ---------------------------------------------------------------------------------------------

  /** Where the splitter stands: how many parentheses are open, in a string or not, behind a backslash or not. */
  datatype Scan = Scan(depth: nat, inString: bool, escaped: bool)

  const NEUTRAL := Scan(0, false, false)

  predicate Splits(s: Scan, c: char) {
    !s.escaped && !s.inString && s.depth == 0 && c == ','
  }

  function Next(s: Scan, c: char): Scan {
    if s.escaped then s.(escaped := false)
    else if c == '\\' && s.inString then s.(escaped := true)
    else if c == '"' then s.(inString := !s.inString)
    else if !s.inString && c == '(' then s.(depth := s.depth + 1)
    else if !s.inString && c == ')' && s.depth > 0 then s.(depth := s.depth - 1)
    else s
  }

  /** The parts of the rest of a body, with `current` already read of the first of them. */
  function SplitFrom(rest: string, s: Scan, current: string): seq<string>
    decreases rest
  {
    if rest == "" then (if current == "" then [] else [current])
    else if Splits(s, rest[0]) then [current] + SplitFrom(rest[1..], s, "")
    else SplitFrom(rest[1..], Next(s, rest[0]), current + [rest[0]])
  }

  function Split(body: string): seq<string> {
    SplitFrom(body, NEUTRAL, "")
  }

  function Join(parts: seq<string>): string {
    if parts == [] then ""
    else if |parts| == 1 then parts[0]
    else parts[0] + "," + Join(parts[1..])
  }

  method SplitSettings(body: string) returns (parts: seq<string>)
    ensures parts == Split(body)
  {
    parts := [];
    var current := "";
    var depth: nat, inString, escaped := 0, false, false;
    for i := 0 to |body|
      invariant parts + SplitFrom(body[i..], Scan(depth, inString, escaped), current) == Split(body)
    {
      var c := body[i];
      assert body[i..][0] == c && body[i..][1..] == body[i + 1..];
      if escaped {
        current := current + [c];
        escaped := false;
        continue;
      }
      if c == '\\' && inString {
        current := current + [c];
        escaped := true;
        continue;
      }
      if c == '"' {
        inString := !inString;
        current := current + [c];
        continue;
      }
      if !inString {
        if c == '(' {
          depth := depth + 1;
        } else if c == ')' && depth > 0 {
          depth := depth - 1;
        } else if c == ',' && depth == 0 {
          parts := parts + [current];
          current := "";
          continue;
        }
      }
      current := current + [c];
    }
    assert body[|body|..] == "";
    if current != "" {
      parts := parts + [current];
    }
  }

  // ---------------------------------------------------------------------------------------------
  // Values
  // ---------------------------------------------------------------------------------------------

  function Doubled(value: string, c: char): string {
    if value == "" then ""
    else (if value[0] == c then ['\\', c] else [value[0]]) + Doubled(value[1..], c)
  }

  function Escape(value: string): string {
    Doubled(Doubled(value, '\\'), '"')
  }

  predicate AllDigits(s: string) {
    forall i | 0 <= i < |s| :: IsDigit(s[i])
  }

  function DigitPrefix(s: string): (n: nat)
    ensures n <= |s| && AllDigits(s[..n]) && (n < |s| ==> !IsDigit(s[n]))
  {
    if s == "" || !IsDigit(s[0]) then 0 else 1 + DigitPrefix(s[1..])
  }

  predicate Unsigned(s: string) {
    var n := DigitPrefix(s);
    if n > 0 then n == |s| || (s[n] == '.' && AllDigits(s[n + 1..]))
    else |s| > 1 && s[0] == '.' && AllDigits(s[1..])
  }

  /** An optional sign, digits, and an optional point in front of, among or behind them. */
  predicate IsNumber(s: string) {
    s != "" && Unsigned(if s[0] == '+' || s[0] == '-' then s[1..] else s)
  }

  predicate IsToken(s: string) {
    s != "" && IsLetter(s[0]) && forall i | 0 <= i < |s| :: IsWordChar(s[i])
  }

  /** The live file is the schema: what a value may be follows from what is there. */
  datatype Shape = Quoted | Tuple | Boolean | Number | Token

  function ShapeOf(raw: string): Shape {
    var was := Strip(raw);
    if StartsWith(was, "\"") then Quoted
    else if StartsWith(was, "(") then Tuple
    else if was == "True" || was == "False" then Boolean
    else if IsNumber(was) then Number
    else Token
  }

  /** The new text of a value, or nothing if it must be refused. */
  function Render(shape: Shape, value: string): Option<string> {
    var candidate := Strip(value);
    match shape
    case Quoted => Some("\"" + Escape(value) + "\"")
    case Tuple => None
    case Boolean =>
      if Lowered(candidate) == "true" || candidate == "1" then Some("True")
      else if Lowered(candidate) == "false" || candidate == "0" then Some("False")
      else None
    case Number => if IsNumber(candidate) then Some(candidate) else None
    case Token => if IsToken(candidate) then Some(candidate) else None
  }

  // ---------------------------------------------------------------------------------------------
  // Keys
  // ---------------------------------------------------------------------------------------------

  /** A part with a "=" has a key, without the blanks around it. */
  function KeyOf(part: string): Option<string> {
    var n := Find(part, '=');
    if n < |part| then Some(Strip(part[..n])) else None
  }

  function RawOf(part: string): string {
    var n := Find(part, '=');
    if n < |part| then part[n + 1..] else ""
  }

  function Part(key: string, raw: string): string {
    key + "=" + raw
  }

  function WithoutUnderscores(s: string): string {
    if s == "" then "" else (if s[0] == '_' then "" else [s[0]]) + WithoutUnderscores(s[1..])
  }

  function Normalise(name: string): string {
    Lowered(WithoutUnderscores(name))
  }

  /** The folded names by which a key can be found; an Unreal boolean has two. */
  function Forms(key: string): seq<string> {
    [Normalise(key)] + if |key| > 1 && key[0] == 'b' && IsUpper(key[1]) then [Normalise(key[1..])] else []
  }

  function Keys(parts: seq<string>): seq<Option<string>> {
    seq(|parts|, i requires 0 <= i < |parts| => KeyOf(parts[i]))
  }

  /** The last position of a key counts. */
  function Position(keys: seq<Option<string>>, key: string): (p: Option<nat>)
    ensures p.Some? ==> p.value < |keys| && keys[p.value] == Some(key) && forall i | p.value < i < |keys| :: keys[i] != Some(key)
    ensures p.None? ==> forall i | 0 <= i < |keys| :: keys[i] != Some(key)
  {
    if keys == [] then None
    else if keys[|keys| - 1] == Some(key) then Some(|keys| - 1)
    else Position(keys[..|keys| - 1], key)
  }

  /** Of the keys that share a folded name, the first counts. */
  function Folded(keys: seq<Option<string>>, form: string): Option<string> {
    if keys == [] then None
    else
      var n := |keys| - 1;
      var before := Folded(keys[..n], form);
      if before.None? && keys[n].Some? && form in Forms(keys[n].value) then keys[n] else before
  }

  predicate Answers(key: Option<string>, form: string) {
    key.Some? && form in Forms(key.value)
  }

  lemma {:induction false} FoldedIsFirst(keys: seq<Option<string>>, form: string)
    ensures Folded(keys, form).Some? ==>
              Answers(Folded(keys, form), form)
              && exists i :: 0 <= i < |keys| && keys[i] == Folded(keys, form) && forall j | 0 <= j < i :: !Answers(keys[j], form)
    ensures Folded(keys, form).None? ==> forall j | 0 <= j < |keys| :: !Answers(keys[j], form)
  {
    hide Forms;
    if keys != [] {
      var n := |keys| - 1;
      FoldedIsFirst(keys[..n], form);
      if Folded(keys[..n], form).Some? {
        var i :| 0 <= i < n && keys[..n][i] == Folded(keys[..n], form) && forall j | 0 <= j < i :: !Answers(keys[..n][j], form);
        assert keys[i] == Folded(keys, form) && forall j | 0 <= j < i :: !Answers(keys[j], form);
      } else if Answers(keys[n], form) {
        assert keys[n] == Folded(keys, form) && forall j | 0 <= j < n :: !Answers(keys[j], form);
      }
    }
  }

  function Exception(name: string): Option<string> {
    if name == "MAX_PLAYERS" then Some("ServerPlayerMaxNum")
    else if name == "SERVER_PORT" then Some("PublicPort")
    else if name == "SERVER_REGION" then Some("Region")
    else if name == "ENABLE_ENEMY" then Some("bEnableInvaderEnemy")
    else if name == "USE_BACKUP_SAVE_DATA" then Some("bIsUseBackupSaveData")
    else if name == "CHAT_POST_LIMIT" then Some("ChatPostLimitPerMinute")
    else if name == "INVISIBLE_OTHER_GUILD_BASE" then Some("bInvisibleOtherGuildBaseCampAreaFX")
    else if name == "RCON_ENABLE" then Some("RCONEnabled")
    else None
  }

  /** The key that a name stands for, if the file has it. */
  function Resolve(keys: seq<Option<string>>, name: string): (key: Option<string>)
    ensures key.Some? ==> Position(keys, key.value).Some?
  {
    var key := if Exception(name).Some? then Exception(name) else Folded(keys, Normalise(name));
    if key.Some? && Position(keys, key.value).Some? then key else None
  }

  predicate Ignored(name: string) {
    name == "REST_API_HOST" || StartsWith(name, "PALWARDEN_") || StartsWith(name, "PALWORLD_")
  }

  function SetDefault(m: map<string, string>, form: string, key: string): map<string, string> {
    if form in m then m else m[form := key]
  }

  function Defaulted(m: map<string, string>, key: string): map<string, string> {
    var once := SetDefault(m, Normalise(key), key);
    if |Forms(key)| == 2 then SetDefault(once, Normalise(key[1..]), key) else once
  }

  function Positions(keys: seq<Option<string>>): map<string, nat> {
    if keys == [] then map[]
    else
      var n := |keys| - 1;
      if keys[n].None? then Positions(keys[..n]) else Positions(keys[..n])[keys[n].value := n]
  }

  function ByNorm(keys: seq<Option<string>>): map<string, string> {
    if keys == [] then map[]
    else
      var n := |keys| - 1;
      if keys[n].None? then ByNorm(keys[..n]) else Defaulted(ByNorm(keys[..n]), keys[n].value)
  }

  lemma {:induction false} PositionsArePositions(keys: seq<Option<string>>, key: string)
    ensures (if key in Positions(keys) then Some(Positions(keys)[key]) else None) == Position(keys, key)
  {
    if keys != [] {
      PositionsArePositions(keys[..|keys| - 1], key);
    }
  }

  lemma {:induction false} ByNormIsFolded(keys: seq<Option<string>>, form: string)
    ensures (if form in ByNorm(keys) then Some(ByNorm(keys)[form]) else None) == Folded(keys, form)
  {
    hide Normalise, Forms;
    if keys != [] {
      var n := |keys| - 1;
      ByNormIsFolded(keys[..n], form);
      if keys[n].Some? {
        DefaultedForms(ByNorm(keys[..n]), keys[n].value, form);
      }
    }
  }

  lemma DefaultedForms(m: map<string, string>, key: string, form: string)
    ensures var d := Defaulted(m, key);
            (if form in d then Some(d[form]) else None)
            == (if form in m then Some(m[form]) else if form in Forms(key) then Some(key) else None)
  {
    hide Normalise;
  }

  /** `keys` and `by_norm` together answer as `Position` and `Folded` do. */
  method IndexKeys(parts: seq<string>) returns (keys: map<string, nat>, byNorm: map<string, string>)
    ensures forall k :: (if k in keys then Some(keys[k]) else None) == Position(Keys(parts), k)
    ensures forall f :: (if f in byNorm then Some(byNorm[f]) else None) == Folded(Keys(parts), f)
  {
    hide KeyOf, Normalise, Position, Folded;
    keys, byNorm := map[], map[];
    for i := 0 to |parts|
      invariant keys == Positions(Keys(parts[..i])) && byNorm == ByNorm(Keys(parts[..i]))
    {
      assert Keys(parts[..i + 1])[..i] == Keys(parts[..i]);
      var part := KeyOf(parts[i]);
      if part.None? {
        continue;
      }
      var key := part.value;
      keys := keys[key := i];
      byNorm := SetDefault(byNorm, Normalise(key), key);
      if |key| > 1 && key[0] == 'b' && IsUpper(key[1]) {
        byNorm := SetDefault(byNorm, Normalise(key[1..]), key);
      }
    }
    assert parts[..|parts|] == parts;
    forall k ensures (if k in keys then Some(keys[k]) else None) == Position(Keys(parts), k) {
      PositionsArePositions(Keys(parts), k);
    }
    forall f ensures (if f in byNorm then Some(byNorm[f]) else None) == Folded(Keys(parts), f) {
      ByNormIsFolded(Keys(parts), f);
    }
  }

  // ---------------------------------------------------------------------------------------------
  // Applying
  // ---------------------------------------------------------------------------------------------

  datatype Setting = Setting(name: string, value: string)

  /** Where a setting goes, if anywhere. */
  function Target(keys: seq<Option<string>>, name: string): (p: Option<nat>)
    ensures p.Some? ==> p.value < |keys| && keys[p.value].Some? && Resolve(keys, name) == keys[p.value]
  {
    if Ignored(name) || Resolve(keys, name).None? then None
    else Position(keys, Resolve(keys, name).value)
  }

  /** Does this value lead to a different text? */
  predicate Rewrites(part: string, value: string) {
    var fitted := Render(ShapeOf(RawOf(part)), value);
    KeyOf(part).Some? && fitted.Some? && fitted.value != RawOf(part)
  }

  function Put(part: string, value: string): string {
    if Rewrites(part, value) then Part(KeyOf(part).value, Render(ShapeOf(RawOf(part)), value).value) else part
  }

  function Apply(parts: seq<string>, setting: Setting): (r: seq<string>)
    ensures |r| == |parts|
  {
    match Target(Keys(parts), setting.name)
    case None => parts
    case Some(p) => parts[p := Put(parts[p], setting.value)]
  }

  function ApplyAll(parts: seq<string>, settings: seq<Setting>): (r: seq<string>)
    ensures |r| == |parts|
  {
    if settings == [] then parts
    else Apply(ApplyAll(parts, settings[..|settings| - 1]), settings[|settings| - 1])
  }

  predicate Hit(parts: seq<string>, setting: Setting) {
    var p := Target(Keys(parts), setting.name);
    p.Some? && Rewrites(parts[p.value], setting.value)
  }

  /** Was anything written at all? Writing a value and then the former one again counts. */
  predicate Changed(parts: seq<string>, settings: seq<Setting>) {
    settings != [] &&
    (Changed(parts, settings[..|settings| - 1])
     || Hit(ApplyAll(parts, settings[..|settings| - 1]), settings[|settings| - 1]))
  }

  function ApplyBody(body: string, settings: seq<Setting>): string {
    if Changed(Split(body), settings) then Join(ApplyAll(Split(body), settings)) else body
  }

  method UpdateSettings(body: string, settings: seq<Setting>) returns (text: string)
    ensures text == ApplyBody(body, settings)
  {
    hide Render, ShapeOf, RawOf, KeyOf, Position, Folded, Normalise, Ignored, Exception, Split, Join;
    var parts := SplitSettings(body);
    ghost var start := parts;
    var keys, byNorm := IndexKeys(parts);
    var changed := false;
    for i := 0 to |settings|
      invariant parts == ApplyAll(start, settings[..i]) && Keys(parts) == Keys(start)
      invariant changed == Changed(start, settings[..i])
    {
      assert settings[..i + 1][..i] == settings[..i];
      ApplyKeepsKeys(parts, settings[i]);
      var Setting(name, value) := settings[i];
      if Ignored(name) {
        continue;
      }
      var form := Normalise(name);
      var key := if Exception(name).Some? then Exception(name) else if form in byNorm then Some(byNorm[form]) else None;
      if key.None? || key.value !in keys {
        continue;
      }
      var p := keys[key.value];
      var raw := RawOf(parts[p]);
      var fitted := Render(ShapeOf(raw), value);
      if fitted.None? || fitted.value == raw {
        continue;
      }
      parts := parts[p := Part(key.value, fitted.value)];
      changed := true;
    }
    assert settings[..|settings|] == settings;
    text := if changed then Join(parts) else body;
  }

  lemma PartReads(key: string, raw: string)
    requires '=' !in key && Trimmed(key)
    ensures KeyOf(Part(key, raw)) == Some(key) && RawOf(Part(key, raw)) == raw
  {
    FindBehind(key, '=', raw);
    CutAt(key, '=', raw);
  }

  lemma KeyIsClean(part: string)
    ensures KeyOf(part).Some? ==> '=' !in KeyOf(part).value && Trimmed(KeyOf(part).value)
  {
  }

  lemma PutKeepsKey(part: string, value: string)
    ensures KeyOf(Put(part, value)) == KeyOf(part)
  {
    hide KeyOf, RawOf, Render, ShapeOf, Part;
    if Rewrites(part, value) {
      KeyIsClean(part);
      PartReads(KeyOf(part).value, Render(ShapeOf(RawOf(part)), value).value);
    }
  }

  lemma ApplyKeepsKeys(parts: seq<string>, setting: Setting)
    ensures Keys(Apply(parts, setting)) == Keys(parts)
  {
    hide KeyOf, Put, Target;
    match Target(Keys(parts), setting.name)
    case None =>
    case Some(p) => PutKeepsKey(parts[p], setting.value);
  }

  lemma {:induction false} ApplyAllKeepsKeys(parts: seq<string>, settings: seq<Setting>)
    ensures Keys(ApplyAll(parts, settings)) == Keys(parts)
  {
    hide Apply, Keys;
    if settings != [] {
      ApplyAllKeepsKeys(parts, settings[..|settings| - 1]);
      ApplyKeepsKeys(ApplyAll(parts, settings[..|settings| - 1]), settings[|settings| - 1]);
    }
  }
}
