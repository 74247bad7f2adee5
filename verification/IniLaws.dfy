/** What applying settings preserves: the other parts, the split, and itself. */
module IniLaws {
  import opened Wrappers
  import opened Text
  import opened IniConfig

  // ---------------------------------------------------------------------------------------------
  // Split and join
  // ---------------------------------------------------------------------------------------------

  /** The state behind a text that has no splitting comma; none if there is one. */
  function Run(s: Scan, text: string): Option<Scan>
    decreases text
  {
    if text == "" then Some(s)
    else if Splits(s, text[0]) then None
    else Run(Next(s, text[0]), text[1..])
  }

  predicate Closed(part: string) { Run(NEUTRAL, part) == Some(NEUTRAL) }
  predicate Whole(part: string) { Run(NEUTRAL, part).Some? }

  /** Every part could be followed by a comma; the last need not be complete. */
  predicate Separable(parts: seq<string>) {
    && (forall i | 0 <= i < |parts| - 1 :: Closed(parts[i]))
    && (parts != [] ==> Whole(parts[|parts| - 1]))
  }

  lemma {:induction false} RunConcat(s: Scan, a: string, b: string)
    ensures Run(s, a + b) == match Run(s, a) case None => None case Some(t) => Run(t, b)
    decreases a
  {
    if a == "" {
      assert a + b == b;
    } else if !Splits(s, a[0]) {
      assert (a + b)[1..] == a[1..] + b;
      RunConcat(Next(s, a[0]), a[1..], b);
    }
  }

  lemma {:induction false} SplitPasses(text: string, rest: string, s: Scan, current: string)
    requires Run(s, text).Some?
    ensures SplitFrom(text + rest, s, current) == SplitFrom(rest, Run(s, text).value, current + text)
    decreases text
  {
    if text == "" {
      assert text + rest == rest && current + text == current;
    } else {
      assert (text + rest)[1..] == text[1..] + rest;
      SplitPasses(text[1..], rest, Next(s, text[0]), current + [text[0]]);
      assert current + [text[0]] + text[1..] == current + text;
    }
  }

  predicate EndsEmpty(parts: seq<string>) {
    parts != [] && parts[|parts| - 1] == ""
  }

  /** Splitting what was joined gives the parts back, but an empty part at the end is lost. */
  lemma {:induction false} SplitOfJoin(parts: seq<string>)
    requires Separable(parts)
    ensures Split(Join(parts)) == if EndsEmpty(parts) then parts[..|parts| - 1] else parts
    ensures EndsEmpty(parts) ==> Separable(parts[..|parts| - 1])
    decreases |parts|
  {
    hide Run;
    if parts != [] {
      var first := parts[0];
      if |parts| == 1 {
        SplitPasses(first, "", NEUTRAL, "");
        assert first + "" == first && "" + first == first;
      } else {
        var rest := "," + Join(parts[1..]);
        SplitOfJoin(parts[1..]);
        assert Closed(first);
        assert Join(parts) == first + rest && "" + first == first;
        SplitPasses(first, rest, NEUTRAL, "");
        assert rest[1..] == Join(parts[1..]);
      }
    }
  }

  function StateAt(body: string, i: nat): Scan
    requires i <= |body|
  {
    if i == 0 then NEUTRAL else Next(StateAt(body, i - 1), body[i - 1])
  }

  predicate TopComma(body: string, i: nat)
    requires i < |body|
  {
    Splits(StateAt(body, i), body[i])
  }

  /** Joining what was split gives the body back, but a top-level comma at the end is lost. */
  lemma {:induction false} JoinOfSplit(body: string)
    ensures Separable(Split(body))
    ensures Join(Split(body)) == if body != "" && TopComma(body, |body| - 1) then body[..|body| - 1] else body
  {
    JoinOfRest(body, 0, "");
    assert body[0..] == body;
  }

  /** What splitting from `i` on makes of a part begun and the rest of the body. */
  predicate Rejoins(body: string, i: nat, current: string, parts: seq<string>)
    requires i <= |body|
  {
    && Separable(parts) && (parts == [] <==> i == |body| && current == "")
    && Join(parts) == if |body| > i && TopComma(body, |body| - 1) then current + body[i..|body| - 1] else current + body[i..]
  }

  lemma {:induction false} JoinOfRest(body: string, i: nat, current: string)
    requires i <= |body| && Run(NEUTRAL, current) == Some(StateAt(body, i))
    requires i > 0 && TopComma(body, i - 1) <==> i > 0 && current == ""
    ensures Rejoins(body, i, current, SplitFrom(body[i..], StateAt(body, i), current))
    decreases |body| - i
  {
    hide Rejoins, Splits, Next, Run;
    if i < |body| {
      var c, s := body[i], StateAt(body, i);
      assert body[i..][0] == c && body[i..][1..] == body[i + 1..];
      if Splits(s, c) {
        CommaIsNeutral(s, c);
        JoinOfRest(body, i + 1, "");
        RejoinsComma(body, i, current, SplitFrom(body[i + 1..], s, ""));
      } else {
        RunOne(current, s, c);
        JoinOfRest(body, i + 1, current + [c]);
        RejoinsChar(body, i, current, SplitFrom(body[i + 1..], Next(s, c), current + [c]));
      }
    } else {
      RejoinsEnd(body, current);
    }
  }

  lemma CommaJoins(body: string, i: nat, end: nat, current: string)
    requires i < end <= |body| && body[i] == ','
    ensures current + "," + ("" + body[i + 1..end]) == current + body[i..end]
  {
    assert body[i..end] == "," + body[i + 1..end];
  }

  lemma RejoinsComma(body: string, i: nat, current: string, rest: seq<string>)
    requires i < |body| && body[i] == ',' && TopComma(body, i) && Closed(current) && Rejoins(body, i + 1, "", rest)
    ensures Rejoins(body, i, current, [current] + rest)
  {
    hide Join, Separable, Run, TopComma;
    JoinCons(current, rest);
    CommaJoins(body, i, |body|, current);
    if i + 1 < |body| {
      CommaJoins(body, i, |body| - 1, current);
      assert body[i..] == body[i..|body|] && body[i + 1..] == body[i + 1..|body|];
    } else {
      assert current + body[i..i] == current;
    }
  }

  lemma RejoinsChar(body: string, i: nat, current: string, parts: seq<string>)
    requires i < |body| && !TopComma(body, i) && Rejoins(body, i + 1, current + [body[i]], parts)
    ensures Rejoins(body, i, current, parts)
  {
    hide Join, Separable, TopComma;
    assert body[i..] == [body[i]] + body[i + 1..];
    if i + 1 < |body| {
      assert body[i..|body| - 1] == [body[i]] + body[i + 1..|body| - 1];
    }
  }

  lemma RejoinsEnd(body: string, current: string)
    requires Whole(current)
    ensures Rejoins(body, |body|, current, SplitFrom("", StateAt(body, |body|), current))
  {
    hide Run;
    assert [current] + [] == [current] && [current][1..] == [];
  }

  lemma CommaIsNeutral(s: Scan, c: char)
    requires Splits(s, c)
    ensures c == ',' && s == NEUTRAL == Next(s, c) && Run(NEUTRAL, "") == Some(NEUTRAL)
  {
  }

  lemma RunOne(current: string, s: Scan, c: char)
    requires Run(NEUTRAL, current) == Some(s) && !Splits(s, c)
    ensures Run(NEUTRAL, current + [c]) == Some(Next(s, c))
  {
    RunConcat(NEUTRAL, current, [c]);
    assert [c][1..] == "";
  }

  lemma JoinCons(first: string, rest: seq<string>)
    ensures Join([first] + rest) == if rest == [] then first else first + "," + Join(rest)
    ensures Separable(rest) && (if rest == [] then Whole(first) else Closed(first)) ==> Separable([first] + rest)
  {
    hide Run;
    assert ([first] + rest)[1..] == rest;
  }

  // ---------------------------------------------------------------------------------------------
  // What is written never splits
  // ---------------------------------------------------------------------------------------------

  predicate Special(c: char) { c == '"' || c == '(' || c == ')' || c == ',' }

  predicate Plain(s: string) { forall i | 0 <= i < |s| :: !Special(s[i]) }

  lemma {:induction false} PlainPasses(s: string)
    requires Plain(s)
    ensures Closed(s)
  {
    if s != "" {
      assert s[0] in s;
      PlainPasses(s[1..]);
      assert Run(NEUTRAL, s) == Run(NEUTRAL, s[1..]);
    }
  }

  /** A value escaped inside quotes is passed over, whatever it is. */
  lemma {:induction false} EscapedPasses(value: string)
    ensures Run(Scan(0, true, false), Escape(value)) == Some(Scan(0, true, false))
  {
    var s := Scan(0, true, false);
    if value != "" {
      EscapedPasses(value[1..]);
      EscapeCons(value);
      RunConcat(s, EscapeChar(value[0]), Escape(value[1..]));
      EscapedChar(value[0]);
    }
  }

  lemma EscapedChar(c: char)
    ensures Run(Scan(0, true, false), EscapeChar(c)) == Some(Scan(0, true, false))
  {
    var text := EscapeChar(c);
    if |text| == 2 {
      assert text[1..] == [c] && [c][1..] == "";
      assert Run(Scan(0, true, true), [c]) == Some(Scan(0, true, false));
    } else {
      assert text[1..] == "";
    }
  }

  function EscapeChar(c: char): string {
    if c == '\\' || c == '"' then ['\\', c] else [c]
  }

  /** The two replacements, one character at a time. */
  lemma EscapeCons(value: string)
    requires value != ""
    ensures Escape(value) == EscapeChar(value[0]) + Escape(value[1..])
  {
    var c, rest := value[0], Doubled(value[1..], '\\');
    if c == '\\' {
      var all := ['\\', c] + rest;
      assert Doubled(value, '\\') == all;
      assert all[1..] == [c] + rest && ([c] + rest)[1..] == rest;
      assert Doubled([c] + rest, '"') == [c] + Doubled(rest, '"');
    } else {
      assert Doubled(value, '\\') == [c] + rest;
      assert ([c] + rest)[1..] == rest;
    }
  }

  lemma NumberChars(s: string)
    requires IsNumber(s)
    ensures forall i | 0 <= i < |s| :: IsDigit(s[i]) || s[i] == '.' || s[i] == '+' || s[i] == '-'
  {
    var t := if s[0] == '+' || s[0] == '-' then s[1..] else s;
    var n := DigitPrefix(t);
    forall i | 0 <= i < |t| ensures IsDigit(t[i]) || t[i] == '.' {
      if i < n {
        assert t[..n][i] == t[i];
      } else if n > 0 && i > n {
        assert t[n + 1..][i - n - 1] == t[i];
      } else if n == 0 && i > 0 {
        assert t[1..][i - 1] == t[i];
      }
    }
    assert s != t ==> forall i | 1 <= i < |s| :: s[i] == t[i - 1];
  }

  lemma NumberIsPlain(s: string)
    requires IsNumber(s)
    ensures Plain(s) && Trimmed(s)
    ensures !StartsWith(s, "\"") && !StartsWith(s, "(") && s != "True" && s != "False"
  {
    NumberChars(s);
    hide IsNumber;
    assert "True"[0] == 'T' && "False"[0] == 'F';
  }

  lemma TokenIsPlain(s: string)
    requires IsToken(s)
    ensures Plain(s) && Trimmed(s) && !IsNumber(s)
    ensures !StartsWith(s, "\"") && !StartsWith(s, "(")
  {
    assert IsWordChar(s[|s| - 1]);
  }

  lemma Truths()
    ensures IsToken("True") && IsToken("False")
    ensures Lowered("True") == "true" && Lowered("False") == "false"
    ensures Strip("True") == "True" && Strip("False") == "False"
  {
    assert Lowered("True") == "true";
    assert Lowered("False") == "false";
  }

  /** A rendered value closes, keeps its shape (a bare word may become a truth value), and renders as itself again. */
  lemma RenderKeeps(shape: Shape, value: string)
    requires Render(shape, value).Some?
    ensures var r := Render(shape, value).value;
            && Closed(r)
            && (ShapeOf(r) == shape || (shape == Token && ShapeOf(r) == Boolean))
            && Render(ShapeOf(r), value) == Some(r)
  {
    hide Lowered, IsNumber, IsToken, Escape;
    var candidate := Strip(value);
    Truths();
    match shape
    case Quoted => QuotedKeeps(value);
    case Boolean =>
      TokenIsPlain("True");
      TokenIsPlain("False");
      PlainPasses("True");
      PlainPasses("False");
    case Number =>
      NumberIsPlain(candidate);
      PlainPasses(candidate);
    case Token =>
      TokenIsPlain(candidate);
      PlainPasses(candidate);
  }

  lemma QuotedKeeps(value: string)
    ensures Closed("\"" + Escape(value) + "\"") && ShapeOf("\"" + Escape(value) + "\"") == Quoted
  {
    hide Escape;
    var text := Escape(value);
    var r := "\"" + text + "\"";
    EscapedPasses(value);
    assert Run(Scan(0, true, false), "\"") == Some(NEUTRAL) by {
      assert "\""[1..] == "";
    }
    RunConcat(Scan(0, true, false), text, "\"");
    assert r[1..] == text + "\"";
    assert Trimmed(r);
  }

  predicate Identifier(name: string) { name != "" && AllWords(name) }

  predicate AllWords(s: string) { forall i | 0 <= i < |s| :: IsWordChar(s[i]) }

  lemma {:induction false} WithoutUnderscoresHas(s: string)
    ensures forall c | c in WithoutUnderscores(s) :: c in s
    ensures forall c | c in s && c != '_' :: c in WithoutUnderscores(s)
  {
    if s != "" {
      WithoutUnderscoresHas(s[1..]);
    }
  }

  /** What folds to the same as an identifier is made of word characters. */
  lemma NormaliseBack(key: string, name: string)
    requires Normalise(key) == Normalise(name) && AllWords(name)
    ensures AllWords(key) && Plain(key)
  {
    WithoutUnderscoresHas(name);
    WithoutUnderscoresHas(key);
    var v, w := WithoutUnderscores(name), WithoutUnderscores(key);
    forall i | 0 <= i < |key| ensures IsWordChar(key[i]) {
      if key[i] != '_' {
        assert key[i] in w;
        var j :| 0 <= j < |w| && w[j] == key[i];
        assert Lower(w[j]) == Normalise(key)[j] == Normalise(name)[j] == Lower(v[j]);
        assert v[j] in v;
      }
    }
  }

  lemma LongNamesAreWords()
    ensures AllWords("bInvisibleOtherGuildBaseCampAreaFX")
    ensures AllWords("bIsUseBackupSaveData") && AllWords("ChatPostLimitPerMinute")
  {
  }

  lemma ShortNamesAreWords()
    ensures AllWords("ServerPlayerMaxNum") && AllWords("PublicPort") && AllWords("Region") && AllWords("bEnableInvaderEnemy")
    ensures AllWords("RCONEnabled")
  {
  }

  lemma ExceptionIsWords(name: string)
    ensures Exception(name).Some? ==> AllWords(Exception(name).value)
  {
    LongNamesAreWords();
    ShortNamesAreWords();
    hide AllWords;
  }

  /** A key that an identifier resolves to is made of word characters, so nothing in it upsets the splitter. */
  lemma ResolvedIsPlain(keys: seq<Option<string>>, name: string)
    requires AllWords(name) && Resolve(keys, name).Some?
    ensures AllWords(Resolve(keys, name).value) && Plain(Resolve(keys, name).value)
  {
    hide Exception, Position, Normalise;
    var key := Resolve(keys, name).value;
    if Exception(name).Some? {
      ExceptionIsWords(name);
    } else {
      FoldedIsFirst(keys, Normalise(name));
      if Normalise(name) == Normalise(key) {
        NormaliseBack(key, name);
      } else {
        NormaliseBack(key[1..], name);
        assert key == [key[0]] + key[1..];
      }
    }
  }

  predicate AllIdentifiers(settings: seq<Setting>) {
    forall i | 0 <= i < |settings| :: Identifier(settings[i].name)
  }

  lemma PartCloses(key: string, raw: string)
    requires Plain(key) && Closed(raw)
    ensures Closed(Part(key, raw)) && Part(key, raw) != ""
  {
    PlainPasses(key);
    RunConcat(NEUTRAL, key, "=");
    assert Run(NEUTRAL, "=") == Some(NEUTRAL) by {
      assert "="[1..] == "";
    }
    RunConcat(NEUTRAL, key + "=", raw);
  }

  lemma ApplySeparable(parts: seq<string>, setting: Setting)
    requires Separable(parts) && Identifier(setting.name)
    ensures Separable(Apply(parts, setting)) && EndsEmpty(Apply(parts, setting)) == EndsEmpty(parts)
  {
    hide Render, ShapeOf, RawOf, KeyOf, Part, Run, Resolve, Target, Keys;
    var target := Target(Keys(parts), setting.name);
    TargetKey(parts, setting.name);
    if target.Some? && Rewrites(parts[target.value], setting.value) {
      var p := target.value;
      ResolvedIsPlain(Keys(parts), setting.name);
      RenderKeeps(ShapeOf(RawOf(parts[p])), setting.value);
      PartCloses(KeyOf(parts[p]).value, Render(ShapeOf(RawOf(parts[p])), setting.value).value);
      KeylessIsEmpty();
    }
  }

  lemma KeylessIsEmpty()
    ensures KeyOf("").None?
  {
  }

  lemma TargetKey(parts: seq<string>, name: string)
    ensures var t := Target(Keys(parts), name);
            t.Some? ==> t.value < |parts| && KeyOf(parts[t.value]).Some? && Resolve(Keys(parts), name) == KeyOf(parts[t.value])
  {
    hide KeyOf, Resolve;
  }

  lemma {:induction false} ApplyAllSeparable(parts: seq<string>, settings: seq<Setting>)
    requires Separable(parts) && AllIdentifiers(settings)
    ensures Separable(ApplyAll(parts, settings)) && EndsEmpty(ApplyAll(parts, settings)) == EndsEmpty(parts)
  {
    hide Apply, Separable;
    if settings != [] {
      ApplyAllSeparable(parts, settings[..|settings| - 1]);
      ApplySeparable(ApplyAll(parts, settings[..|settings| - 1]), settings[|settings| - 1]);
    }
  }

  // ---------------------------------------------------------------------------------------------
  // Locality
  // ---------------------------------------------------------------------------------------------

  /** The values meant for one part, in order. */
  function Meant(keys: seq<Option<string>>, settings: seq<Setting>, p: nat): seq<string> {
    if settings == [] then []
    else
      var last := settings[|settings| - 1];
      Meant(keys, settings[..|settings| - 1], p) + if Target(keys, last.name) == Some(p) then [last.value] else []
  }

  function PutAll(part: string, values: seq<string>): string {
    if values == [] then part else Put(PutAll(part, values[..|values| - 1]), values[|values| - 1])
  }

  lemma ApplyAt(parts: seq<string>, setting: Setting, p: nat)
    requires p < |parts|
    ensures Apply(parts, setting)[p] == if Target(Keys(parts), setting.name) == Some(p) then Put(parts[p], setting.value) else parts[p]
  {
    hide Put, Target, Keys;
  }

  lemma PutAllLast(part: string, values: seq<string>, value: string)
    ensures PutAll(part, values + [value]) == Put(PutAll(part, values), value)
    ensures PutAll(part, values + []) == PutAll(part, values)
  {
    hide Put;
    assert (values + [value])[..|values|] == values && values + [] == values;
  }

  /** Each part depends on its own text and the values meant for it, and on nothing else. */
  lemma {:induction false} PartsAreIndependent(parts: seq<string>, settings: seq<Setting>, p: nat)
    requires p < |parts|
    ensures ApplyAll(parts, settings)[p] == PutAll(parts[p], Meant(Keys(parts), settings, p))
  {
    hide Put, Target, Keys, Apply;
    if settings != [] {
      var n := |settings| - 1;
      PartsAreIndependent(parts, settings[..n], p);
      ApplyAllKeepsKeys(parts, settings[..n]);
      ApplyAt(ApplyAll(parts, settings[..n]), settings[n], p);
      PutAllLast(parts[p], Meant(Keys(parts), settings[..n], p), settings[n].value);
    }
  }

  /** The value a part holds in the end: the last one that its shape, as it then was, let through. */
  function Settled(raw: string, values: seq<string>): string {
    if values == [] then raw
    else
      var before := Settled(raw, values[..|values| - 1]);
      Render(ShapeOf(before), values[|values| - 1]).GetOr(before)
  }

  lemma {:induction false} PutAllSettles(part: string, values: seq<string>)
    requires KeyOf(part).Some?
    ensures KeyOf(PutAll(part, values)) == KeyOf(part)
    ensures RawOf(PutAll(part, values)) == Settled(RawOf(part), values)
    ensures PutAll(part, values) == part || PutAll(part, values) == Part(KeyOf(part).value, Settled(RawOf(part), values))
  {
    hide KeyOf, RawOf, Render, ShapeOf, Part;
    if values != [] {
      var n := |values| - 1;
      PutAllSettles(part, values[..n]);
      var before := PutAll(part, values[..n]);
      PutKeepsKey(before, values[n]);
      if Rewrites(before, values[n]) {
        KeyIsClean(part);
        PartReads(KeyOf(part).value, Render(ShapeOf(RawOf(before)), values[n]).value);
      }
    }
  }

  // ---------------------------------------------------------------------------------------------
  // Doing it again
  // ---------------------------------------------------------------------------------------------

  lemma {:induction false} BooleanStays(raw: string, values: seq<string>)
    ensures ShapeOf(Settled(raw, values)) == ShapeOf(raw) || (ShapeOf(raw) == Token && ShapeOf(Settled(raw, values)) == Boolean)
  {
    hide Render, ShapeOf;
    if values != [] {
      var n := |values| - 1;
      BooleanStays(raw, values[..n]);
      var before := Settled(raw, values[..n]);
      if Render(ShapeOf(before), values[n]).Some? {
        RenderKeeps(ShapeOf(before), values[n]);
      }
    }
  }

  /** From any text of the shape it ended with, the same values end the same, unless none of them was ever let through. */
  lemma {:induction false} SettledAgain(raw: string, values: seq<string>, again: string)
    requires ShapeOf(again) == ShapeOf(Settled(raw, values))
    ensures Settled(again, values) == Settled(raw, values) || (Settled(again, values) == again && Settled(raw, values) == raw)
  {
    hide Render, ShapeOf;
    if values != [] {
      var n := |values| - 1;
      var before, value := Settled(raw, values[..n]), values[n];
      if Render(ShapeOf(before), value).None? {
        SettledAgain(raw, values[..n], again);
      } else {
        RenderKeeps(ShapeOf(before), value);
        BooleanStays(again, values[..n]);
        if ShapeOf(again) == ShapeOf(before) {
          SettledAgain(raw, values[..n], again);
        }
      }
    }
  }

  lemma PutAllAgain(part: string, values: seq<string>)
    requires KeyOf(part).Some?
    ensures PutAll(PutAll(part, values), values) == PutAll(part, values)
  {
    hide KeyOf, RawOf, ShapeOf, Part, PutAll, Settled;
    var once := PutAll(part, values);
    PutAllSettles(part, values);
    if once != part {
      SettledAgain(RawOf(part), values, RawOf(once));
      PutAllSettles(once, values);
    }
  }

  lemma {:induction false} NothingMeant(keys: seq<Option<string>>, settings: seq<Setting>, p: nat)
    requires p < |keys| && keys[p].None?
    ensures Meant(keys, settings, p) == []
  {
    hide Target;
    if settings != [] {
      NothingMeant(keys, settings[..|settings| - 1], p);
    }
  }

  /** Applying the same settings again changes no part, however many of them meet in one. */
  lemma ApplyAllAgain(parts: seq<string>, settings: seq<Setting>)
    ensures ApplyAll(ApplyAll(parts, settings), settings) == ApplyAll(parts, settings)
  {
    hide KeyOf, PutAll, ApplyAll, Meant;
    var once := ApplyAll(parts, settings);
    ApplyAllKeepsKeys(parts, settings);
    forall p | 0 <= p < |parts| ensures ApplyAll(once, settings)[p] == once[p] {
      PartsAreIndependent(parts, settings, p);
      PartsAreIndependent(once, settings, p);
      var values := Meant(Keys(parts), settings, p);
      assert Keys(parts)[p] == KeyOf(parts[p]);
      if KeyOf(parts[p]).Some? {
        PutAllAgain(parts[p], values);
      } else {
        NothingMeant(Keys(parts), settings, p);
        PutNone(parts[p]);
      }
    }
  }

  lemma PutNone(part: string)
    ensures PutAll(part, []) == part
  {
  }

  // ---------------------------------------------------------------------------------------------
  // The body
  // ---------------------------------------------------------------------------------------------

  lemma {:induction false} UnchangedIsSame(parts: seq<string>, settings: seq<Setting>)
    requires !Changed(parts, settings)
    ensures ApplyAll(parts, settings) == parts
  {
    hide Rewrites, Target, Keys;
    if settings != [] {
      UnchangedIsSame(parts, settings[..|settings| - 1]);
    }
  }

  /** Something is written exactly if some setting alone would rewrite a part as it was. */
  lemma {:induction false} ChangedIffHit(parts: seq<string>, settings: seq<Setting>)
    ensures Changed(parts, settings) <==> exists i | 0 <= i < |settings| :: Hit(parts, settings[i])
  {
    hide Apply, Hit;
    if settings != [] {
      var n := |settings| - 1;
      ChangedIffHit(parts, settings[..n]);
      if Changed(parts, settings[..n]) {
        var i :| 0 <= i < n && Hit(parts, settings[..n][i]);
        assert Hit(parts, settings[i]);
      } else {
        UnchangedIsSame(parts, settings[..n]);
        forall i | 0 <= i < n ensures !Hit(parts, settings[i]) {
          assert !Hit(parts, settings[..n][i]);
        }
      }
    }
  }

  /**
   Splitting the body after the run gives the original parts, each with the last value that was let
   through for it, exactly if the body does not end in an empty part or nothing was written.
   */
  lemma ApplyIsLocal(body: string, settings: seq<Setting>)
    requires AllIdentifiers(settings)
    ensures var parts := Split(body);
            && (Split(ApplyBody(body, settings)) == ApplyAll(parts, settings)
                <==> !(EndsEmpty(parts) && exists i | 0 <= i < |settings| :: Hit(parts, settings[i])))
            && (EndsEmpty(parts) && Changed(parts, settings) ==>
                  Split(ApplyBody(body, settings)) == ApplyAll(parts, settings)[..|parts| - 1])
            && forall p | 0 <= p < |parts| :: ApplyAll(parts, settings)[p] == PutAll(parts[p], Meant(Keys(parts), settings, p))
  {
    hide Split, Join, ApplyAll, PutAll, Changed, Meant, Keys, Hit;
    var parts := Split(body);
    ChangedIffHit(parts, settings);
    if Changed(parts, settings) {
      JoinOfSplit(body);
      ApplyAllSeparable(parts, settings);
      SplitOfJoin(ApplyAll(parts, settings));
    } else {
      UnchangedIsSame(parts, settings);
    }
    forall p | 0 <= p < |parts| ensures ApplyAll(parts, settings)[p] == PutAll(parts[p], Meant(Keys(parts), settings, p)) {
      PartsAreIndependent(parts, settings, p);
    }
  }

  /** The last part never counts when it is empty. */
  lemma {:induction false} WithoutTheEmptyEnd(parts: seq<string>, settings: seq<Setting>)
    requires EndsEmpty(parts)
    ensures var n := |parts| - 1;
            && ApplyAll(parts, settings) == ApplyAll(parts[..n], settings) + [""]
            && (Changed(parts, settings) <==> Changed(parts[..n], settings))
  {
    hide Apply, Hit;
    var n := |parts| - 1;
    if settings == [] {
      assert parts == parts[..n] + [""];
    } else {
      var m := |settings| - 1;
      WithoutTheEmptyEnd(parts, settings[..m]);
      ApplyBefore(ApplyAll(parts[..n], settings[..m]), settings[m]);
    }
  }

  lemma ApplyBefore(short: seq<string>, setting: Setting)
    ensures Apply(short + [""], setting) == Apply(short, setting) + [""]
    ensures Hit(short + [""], setting) <==> Hit(short, setting)
  {
    hide Put, Rewrites, Target, Keys;
    SameTarget(short, setting.name);
    TargetKey(short, setting.name);
  }

  lemma {:induction false} SamePosition(keys: seq<Option<string>>, key: string)
    ensures Position(keys + [None], key) == Position(keys, key)
  {
    assert (keys + [None])[..|keys|] == keys;
  }

  lemma SameTarget(parts: seq<string>, name: string)
    ensures Target(Keys(parts + [""]), name) == Target(Keys(parts), name)
  {
    hide Position, Folded, Normalise, Exception, Ignored;
    KeylessIsEmpty();
    var keys := Keys(parts);
    assert Keys(parts + [""]) == keys + [None];
    SameFolded(keys, Normalise(name));
    forall key ensures Position(keys + [None], key) == Position(keys, key) {
      SamePosition(keys, key);
    }
  }

  lemma SameFolded(keys: seq<Option<string>>, form: string)
    ensures Folded(keys + [None], form) == Folded(keys, form)
  {
    assert (keys + [None])[..|keys|] == keys;
  }

  lemma {:induction false} JoinEnd(parts: seq<string>)
    requires parts != []
    ensures Join(parts + [""]) == Join(parts) + ","
  {
    var all := parts + [""];
    if |parts| == 1 {
      assert all[1..] == [""];
    } else {
      assert all[1..] == parts[1..] + [""];
      JoinEnd(parts[1..]);
    }
  }

  lemma {:induction false} ChangedHasParts(settings: seq<Setting>)
    ensures !Changed([], settings)
  {
    if settings != [] {
      ChangedHasParts(settings[..|settings| - 1]);
    }
  }

  /** A second run can only take something from the end. */
  lemma SecondTime(body: string, settings: seq<Setting>)
    requires AllIdentifiers(settings)
    ensures var left, again := ApplyBody(body, settings), ApplyBody(ApplyBody(body, settings), settings);
            |again| <= |left| && again == left[..|again|]
    ensures var parts := Split(body);
            ApplyBody(ApplyBody(body, settings), settings) == ApplyBody(body, settings)
            <==> !(EndsEmpty(parts) && Changed(parts, settings) && Changed(ApplyAll(parts, settings), settings))
  {
    hide Split, Join, ApplyAll, Changed, Hit;
    var parts := Split(body);
    if Changed(parts, settings) {
      var once := ApplyAll(parts, settings);
      ChangedIffHit(parts, settings);
      ApplyIsLocal(body, settings);
      ApplyAllAgain(parts, settings);
      ApplyAllSeparable2(body, settings);
      if EndsEmpty(parts) {
        var n := |parts| - 1;
        WithoutTheEmptyEnd(once, settings);
        assert once == once[..n] + [""];
        assert ApplyAll(once[..n], settings) == once[..n];
        if n > 0 {
          JoinEnd(once[..n]);
        } else {
          ChangedHasParts(settings);
        }
      }
    }
  }

  /** Would setting `i`, on top of all of them, still put another text in place of the one its part settles at? */
  predicate Overridden(parts: seq<string>, settings: seq<Setting>, i: nat)
    requires i < |settings|
  {
    var keys := Keys(parts);
    var p := Target(keys, settings[i].name);
    p.Some? &&
    (var settled := Settled(RawOf(parts[p.value]), Meant(keys, settings, p.value));
     var rendered := Render(ShapeOf(settled), settings[i].value);
     rendered.Some? && rendered.value != settled)
  }

  lemma HitsAgain(parts: seq<string>, settings: seq<Setting>, i: nat)
    requires i < |settings|
    ensures Hit(ApplyAll(parts, settings), settings[i]) <==> Overridden(parts, settings, i)
  {
    hide KeyOf, RawOf, Render, ShapeOf, Target, Keys, ApplyAll, PutAll, Meant, Settled;
    ApplyAllKeepsKeys(parts, settings);
    TargetKey(parts, settings[i].name);
    var p := Target(Keys(parts), settings[i].name);
    if p.Some? {
      PartsAreIndependent(parts, settings, p.value);
      PutAllSettles(parts[p.value], Meant(Keys(parts), settings, p.value));
    }
  }

  /**
   Applying the same settings again gives the same text, except in one case: the body ends in an empty
   part, and some setting is overridden by a later one of the same key. Then the second run writes its
   value over and the other one back, puts the line together anew, and loses its last comma.
   */
  lemma ApplyIsIdempotent(body: string, settings: seq<Setting>)
    requires AllIdentifiers(settings)
    ensures var parts := Split(body);
            ApplyBody(ApplyBody(body, settings), settings) == ApplyBody(body, settings)
            <==> !(EndsEmpty(parts) && exists i | 0 <= i < |settings| :: Overridden(parts, settings, i))
  {
    hide Split, ApplyBody, ApplyAll, Changed, Hit, Overridden;
    var parts := Split(body);
    SecondTime(body, settings);
    ChangedIffHit(ApplyAll(parts, settings), settings);
    forall i | 0 <= i < |settings| ensures Hit(ApplyAll(parts, settings), settings[i]) <==> Overridden(parts, settings, i) {
      HitsAgain(parts, settings, i);
    }
    if !Changed(parts, settings) {
      UnchangedIsSame(parts, settings);
    }
  }

  lemma ApplyAllSeparable2(body: string, settings: seq<Setting>)
    requires AllIdentifiers(settings)
    ensures EndsEmpty(ApplyAll(Split(body), settings)) == EndsEmpty(Split(body))
  {
    JoinOfSplit(body);
    ApplyAllSeparable(Split(body), settings);
  }

  predicate OneEach(keys: seq<Option<string>>, settings: seq<Setting>) {
    forall i, j | 0 <= i < j < |settings| && Target(keys, settings[i].name).Some? ::
      Target(keys, settings[i].name) != Target(keys, settings[j].name)
  }

  /** So it is always idempotent when no two names meet in one key. */
  lemma OneEachIsIdempotent(body: string, settings: seq<Setting>)
    requires AllIdentifiers(settings) && OneEach(Keys(Split(body)), settings)
    ensures ApplyBody(ApplyBody(body, settings), settings) == ApplyBody(body, settings)
  {
    hide Split, ApplyAll, Changed, Keys, OneEach;
    var parts := Split(body);
    SecondTime(body, settings);
    ApplyAllKeepsKeys(parts, settings);
    SecondTimeNothing(parts, settings, |settings|);
    assert settings[..|settings|] == settings;
  }

  /** Only setting `i` is meant for part `p`. */
  predicate MeantBy(keys: seq<Option<string>>, settings: seq<Setting>, i: nat, p: nat) {
    && i < |settings| && Target(keys, settings[i].name) == Some(p)
    && forall j | 0 <= j < |settings| && j != i :: Target(keys, settings[j].name) != Some(p)
  }

  lemma {:induction false} OneMeant(keys: seq<Option<string>>, settings: seq<Setting>, i: nat, p: nat)
    requires MeantBy(keys, settings, i, p)
    ensures Meant(keys, settings, p) == [settings[i].value]
  {
    hide Target;
    var n := |settings| - 1;
    if i == n {
      NoneMeant(keys, settings[..n], p);
    } else {
      OneMeant(keys, settings[..n], i, p);
    }
  }

  lemma {:induction false} NoneMeant(keys: seq<Option<string>>, settings: seq<Setting>, p: nat)
    requires forall i | 0 <= i < |settings| :: Target(keys, settings[i].name) != Some(p)
    ensures Meant(keys, settings, p) == []
  {
    hide Target;
    if settings != [] {
      NoneMeant(keys, settings[..|settings| - 1], p);
    }
  }

  lemma EachAlone(keys: seq<Option<string>>, settings: seq<Setting>, i: nat, p: nat)
    requires OneEach(keys, settings) && i < |settings| && Target(keys, settings[i].name) == Some(p)
    ensures MeantBy(keys, settings, i, p)
  {
    hide Target;
  }

  lemma {:induction false} SecondTimeNothing(parts: seq<string>, settings: seq<Setting>, n: nat)
    requires OneEach(Keys(parts), settings) && n <= |settings|
    ensures var once := ApplyAll(parts, settings);
            !Changed(once, settings[..n]) && ApplyAll(once, settings[..n]) == once
  {
    hide Target, Keys, OneEach, Render, ShapeOf, RawOf, KeyOf, Part;
    var once := ApplyAll(parts, settings);
    if n > 0 {
      SecondTimeNothing(parts, settings, n - 1);
      assert settings[..n][..n - 1] == settings[..n - 1];
      ApplyAllKeepsKeys(parts, settings);
      var s := settings[n - 1];
      var target := Target(Keys(parts), s.name);
      TargetKey(parts, s.name);
      if target.Some? {
        var p := target.value;
        PartsAreIndependent(parts, settings, p);
        EachAlone(Keys(parts), settings, n - 1, p);
        OneMeant(Keys(parts), settings, n - 1, p);
        PutTwice(parts[p], s.value);
      }
    }
  }

  lemma PutTwice(part: string, value: string)
    ensures !Rewrites(PutAll(part, [value]), value)
  {
    hide RawOf, KeyOf, Render, ShapeOf, Part;
    assert [value][..0] == [];
    assert PutAll(part, [value]) == Put(part, value);
    if Rewrites(part, value) {
      var shape := ShapeOf(RawOf(part));
      RenderKeeps(shape, value);
      KeyIsClean(part);
      PartReads(KeyOf(part).value, Render(shape, value).value);
    }
  }

  lemma TokenRewrites(raw: string, value: string)
    requires IsToken(raw) && IsToken(value) && raw != value && raw != "True" && raw != "False"
    ensures KeyOf(Part("A", raw)) == Some("A")
    ensures Rewrites(Part("A", raw), value) && Put(Part("A", raw), value) == Part("A", value)
  {
    hide IsToken, KeyOf, RawOf, Part;
    TokenIsPlain(raw);
    TokenIsPlain(value);
    PartReads("A", raw);
  }

  lemma FoldedAlike()
    ensures Normalise("A") == Normalise("A_") && Exception("A").None? && Exception("A_").None?
    ensures !Ignored("A") && !Ignored("A_")
  {
    assert "A"[1..] == "" && "A_"[1..] == "_" && "_"[1..] == "";
    assert WithoutUnderscores("_") == "";
  }

  lemma BothTarget(parts: seq<string>, name: string)
    requires |parts| == 2 && KeyOf(parts[0]) == Some("A") && parts[1] == "" && (name == "A" || name == "A_")
    ensures Target(Keys(parts), name) == Some(0)
  {
    hide Normalise, Exception, Ignored;
    FoldedAlike();
    KeylessIsEmpty();
    var keys := Keys(parts);
    assert keys[0] == Some("A") && keys[1] == None;
    assert Answers(keys[0], Normalise(name));
    FoldedIsFirst(keys, Normalise(name));
    assert Folded(keys, Normalise(name)) == Some("A");
    assert Position(keys, "A") == Some(0);
  }

  lemma OneStep(raw: string, setting: Setting)
    requires setting.name == "A" || setting.name == "A_"
    requires IsToken(raw) && IsToken(setting.value) && raw != setting.value && raw != "True" && raw != "False"
    ensures Hit([Part("A", raw), ""], setting)
    ensures Apply([Part("A", raw), ""], setting) == [Part("A", setting.value), ""]
  {
    hide IsToken, KeyOf, Part, Put, Rewrites, Target, Keys;
    TokenRewrites(raw, setting.value);
    BothTarget([Part("A", raw), ""], setting.name);
  }

  lemma TwoCommas()
    ensures Split("A=w,,") == [Part("A", "w"), ""]
  {
    hide Split;
    var parts := ["A=w", "", ""];
    assert Plain("A=w");
    PlainPasses("A=w");
    assert Closed("");
    assert parts[1..] == ["", ""] && parts[1..][1..] == [""];
    assert Join([""]) == "" && Join(["", ""]) == ",";
    assert Join(parts) == "A=w,,";
    SplitOfJoin(parts);
    assert parts[..2] == ["A=w", ""];
    assert Part("A", "w") == "A=w";
  }

  lemma Twice(parts: seq<string>, a: Setting, b: Setting)
    ensures ApplyAll(parts, [a, b]) == Apply(Apply(parts, a), b)
    ensures Hit(parts, a) ==> Changed(parts, [a, b])
  {
    hide Apply, Hit;
    assert [a, b][..1] == [a] && [a][..0] == [];
    assert ApplyAll(parts, [a]) == Apply(parts, a);
    assert ApplyAll(parts, []) == parts;
    assert Changed(parts, [a]) <==> Hit(parts, a);
  }

  /** The exceptional case does occur. */
  lemma NotAlwaysIdempotent()
    ensures var settings := [Setting("A", "x"), Setting("A_", "y")];
            ApplyBody(ApplyBody("A=w,,", settings), settings) != ApplyBody("A=w,,", settings)
  {
    hide Split, Part, Apply, Hit, ApplyBody;
    var a, b := Setting("A", "x"), Setting("A_", "y");
    var settings := [a, b];
    TwoCommas();
    OneStep("w", a);
    OneStep("x", b);
    OneStep("y", a);
    var once := [Part("A", "y"), ""];
    Twice([Part("A", "w"), ""], a, b);
    Twice(once, a, b);
    SecondTime("A=w,,", settings);
  }
}
