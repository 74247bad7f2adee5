/** The settings form (palwarden-jobd), and whether what it accepts is what is later applied. */
module GameSettings {
  import opened Wrappers
  import opened Text
  import opened IniConfig
  import opened IniLaws
  import opened EnvFile

  const GAME_SETTINGS_MAX := 200

  /** A value as it comes out of the request; numbers with the text Python gives them. */
  datatype Json = Str(s: string) | Num(s: string) | Bool(b: bool) | Other

  datatype Entry = Entry(key: string, value: Json)

  datatype Refusal =
    | NotAnObject
    | TooMany(n: nat)
    | NoSettingsLine
    | BadName(key: string)
    | BadType(key: string)
    | BadText(key: string)
    | NoMatch(key: string)
    | Secret(iniKey: string)
    | Lifeline(iniKey: string)
    | Twice(key: string, iniKey: string)
    | BadValue(iniKey: string)

  predicate GoodName(key: string) {
    1 <= |key| <= 64 && IsLetter(key[0]) && AllWords(key)
  }

  predicate IsSecret(iniKey: string) {
    Normalise(iniKey) == "adminpassword" || Normalise(iniKey) == "serverpassword"
  }

  predicate IsLifeline(iniKey: string) {
    Normalise(iniKey) == "restapienabled" || Normalise(iniKey) == "restapiport"
  }

  /** One entry against the live file and what the request has set already: the key and value to store. */
  function Check(parts: seq<string>, done: map<string, string>, entry: Entry, printable: string -> bool): Result<Setting, Refusal> {
    var key := entry.key;
    if !GoodName(key) then Err(BadName(key))
    else if !entry.value.Str? && !entry.value.Num? then Err(BadType(key))
    else
      var value := entry.value.s;
      if |value| > 256 || !(value == "" || printable(value)) then Err(BadText(key))
      else
        match Resolve(Keys(parts), key)
        case None => Err(NoMatch(key))
        case Some(iniKey) =>
          if IsSecret(iniKey) then Err(Secret(iniKey))
          else if IsLifeline(iniKey) then Err(Lifeline(iniKey))
          else if iniKey in done then Err(Twice(key, iniKey))
          else if Render(ShapeOf(RawAt(parts, iniKey)), value).None? then Err(BadValue(iniKey))
          else Ok(Setting(iniKey, value))
  }

  /** The raw value of a key: that of its last part. */
  function RawAt(parts: seq<string>, key: string): string {
    match Position(Keys(parts), key)
    case None => ""
    case Some(p) => RawOf(parts[p])
  }

  /** The first refusal ends it. */
  function CheckAll(parts: seq<string>, raw: seq<Entry>, printable: string -> bool): Result<map<string, string>, Refusal> {
    if raw == [] then Ok(map[])
    else
      match CheckAll(parts, raw[..|raw| - 1], printable)
      case Err(why) => Err(why)
      case Ok(done) =>
        match Check(parts, done, raw[|raw| - 1], printable)
        case Err(why) => Err(why)
        case Ok(Setting(iniKey, value)) => Ok(done[iniKey := value])
  }

  lemma {:induction false} FirstRefusalStands(parts: seq<string>, raw: seq<Entry>, n: nat, printable: string -> bool)
    requires n <= |raw| && CheckAll(parts, raw[..n], printable).Err?
    ensures CheckAll(parts, raw, printable) == CheckAll(parts, raw[..n], printable)
    decreases |raw|
  {
    hide Check;
    if n == |raw| {
      assert raw[..n] == raw;
    } else {
      assert raw[..|raw| - 1][..n] == raw[..n];
      FirstRefusalStands(parts, raw[..|raw| - 1], n, printable);
    }
  }

  /** `raw` is nothing if the request does not carry an object, `body` if the live file cannot be read or has no settings line. */
  method ValidateGameSettings(raw: Option<seq<Entry>>, body: Option<string>, printable: string -> bool)
      returns (r: Result<map<string, string>, Refusal>)
    ensures raw.None? || raw.value == [] ==> r == Err(NotAnObject)
    ensures raw.Some? && raw.value != [] ==>
              r == if |raw.value| > GAME_SETTINGS_MAX then Err(TooMany(|raw.value|))
                   else if body.None? then Err(NoSettingsLine)
                   else CheckAll(Split(body.value), raw.value, printable)
  {
    hide Check, Split;
    if raw.None? || raw.value == [] {
      return Err(NotAnObject);
    }
    if |raw.value| > GAME_SETTINGS_MAX {
      return Err(TooMany(|raw.value|));
    }
    if body.None? {
      return Err(NoSettingsLine);
    }
    var parts := SplitSettings(body.value);
    var all := raw.value;
    var normalised := map[];
    for i := 0 to |all|
      invariant CheckAll(parts, all[..i], printable) == Ok(normalised)
    {
      assert all[..i + 1][..i] == all[..i];
      var checked := Check(parts, normalised, all[i], printable);
      if checked.Err? {
        FirstRefusalStands(parts, all, i + 1, printable);
        return Err(checked.error);
      }
      normalised := normalised[checked.value.name := checked.value.value];
    }
    assert all[..|all|] == all;
    return Ok(normalised);
  }

  /** Printable text has no line breaks; nothing else is asked of Unicode here. */
  ghost predicate Classifies(printable: string -> bool) {
    forall s :: printable(s) ==> OneLine(s)
  }

  /** What can be said of every stored setting: the file has the key, and its value there would give way to this one. */
  ghost predicate Good(parts: seq<string>, key: string, value: string) {
    && Position(Keys(parts), key).Some? && AllWords(key) && OneLine(value) && |value| <= 256
    && !IsSecret(key) && !IsLifeline(key) && Render(ShapeOf(RawAt(parts, key)), value).Some?
  }

  lemma {:induction false} AcceptedIsGood(parts: seq<string>, raw: seq<Entry>, printable: string -> bool)
    requires Classifies(printable) && CheckAll(parts, raw, printable).Ok?
    ensures forall k | k in CheckAll(parts, raw, printable).value :: Good(parts, k, CheckAll(parts, raw, printable).value[k])
  {
    hide Resolve, Render, ShapeOf, Position, Keys, IsSecret, IsLifeline, RawAt;
    if raw != [] {
      var n := |raw| - 1;
      AcceptedIsGood(parts, raw[..n], printable);
      var done := CheckAll(parts, raw[..n], printable).value;
      if Resolve(Keys(parts), raw[n].key).Some? && AllWords(raw[n].key) {
        ResolvedIsPlain(Keys(parts), raw[n].key);
      }
      ResolvedIsThere(Keys(parts), raw[n].key);
      assert Check(parts, done, raw[n], printable).Ok?;
    }
  }

  lemma ResolvedIsThere(keys: seq<Option<string>>, name: string)
    ensures Resolve(keys, name).Some? ==> Position(keys, Resolve(keys, name).value).Some?
  {
    hide Position;
  }

  // ---------------------------------------------------------------------------------------------
  // From the form to the game
  // ---------------------------------------------------------------------------------------------

  /** No part in front of the first one of this key answers to its folded name. */
  predicate Unshadowed(keys: seq<Option<string>>, key: string) {
    forall j | 0 <= j < |keys| && keys[j] != Some(key) && Answers(keys[j], Normalise(key)) ::
      exists i | 0 <= i < j :: keys[i] == Some(key)
  }

  lemma AnswersToItself(key: string)
    ensures Answers(Some(key), Normalise(key))
  {
    hide Normalise;
  }

  lemma FoldedToItself(keys: seq<Option<string>>, key: string)
    requires Position(keys, key).Some?
    ensures Folded(keys, Normalise(key)) == Some(key) <==> Unshadowed(keys, key)
  {
    hide Normalise, Position, Folded, Answers;
    var form := Normalise(key);
    var p := Position(keys, key).value;
    PositionIsOfKey(keys, key);
    AnswersToItself(key);
    assert Answers(keys[p], form);
    FoldedIsFirst(keys, form);
    var i :| 0 <= i < |keys| && keys[i] == Folded(keys, form) && forall j | 0 <= j < i :: !Answers(keys[j], form);
    if keys[i] == Some(key) {
      UnshadowedBy(keys, key, i);
    } else {
      ShadowedBy(keys, key, i);
    }
  }

  lemma UnshadowedBy(keys: seq<Option<string>>, key: string, i: nat)
    requires i < |keys| && keys[i] == Some(key) && forall j | 0 <= j < i :: !Answers(keys[j], Normalise(key))
    ensures Unshadowed(keys, key)
  {
    hide Normalise, Answers;
  }

  lemma ShadowedBy(keys: seq<Option<string>>, key: string, i: nat)
    requires i < |keys| && keys[i] != Some(key) && Answers(keys[i], Normalise(key)) && forall j | 0 <= j < i :: !Answers(keys[j], Normalise(key))
    ensures !Unshadowed(keys, key)
  {
    hide Normalise, Answers;
    AnswersToItself(key);
  }

  /**
   The form stores a setting under its key; the parser takes the stored name through the same table
   again. It comes back to that key exactly if the name is not one the parser ignores, is no exception
   that stands for something else, and no earlier key shadows it.
   */
  lemma AppliedToTheSameKey(keys: seq<Option<string>>, key: string)
    requires Position(keys, key).Some?
    ensures Target(keys, key) == Position(keys, key)
            <==> !Ignored(key) && (if Exception(key).Some? then Exception(key) == Some(key) else Unshadowed(keys, key))
  {
    hide Ignored, Exception, Normalise, Position, Folded, Unshadowed;
    FoldedToItself(keys, key);
    PositionIsOfKey(keys, key);
    if Resolve(keys, key).Some? {
      PositionIsOfKey(keys, Resolve(keys, key).value);
    }
  }

  lemma PositionIsOfKey(keys: seq<Option<string>>, key: string)
    ensures Position(keys, key).Some? ==> Position(keys, key).value < |keys| && keys[Position(keys, key).value] == Some(key)
  {
  }

  predicate NoCollision(keys: seq<Option<string>>) {
    forall i, j | 0 <= i < |keys| && 0 <= j < |keys| && keys[i].Some? && keys[j].Some? && keys[i] != keys[j] ::
      Normalise(keys[i].value) !in Forms(keys[j].value)
  }

  lemma NoCollisionNoShadow(keys: seq<Option<string>>, key: string)
    requires NoCollision(keys) && Position(keys, key).Some?
    ensures Unshadowed(keys, key)
  {
    hide Normalise, Forms;
    var p := Position(keys, key).value;
    assert keys[p] == Some(key);
  }

  /** A sequence of settings with exactly the content of a map. */
  predicate Itemises(settings: seq<Setting>, values: map<string, string>) {
    && (forall i | 0 <= i < |settings| :: settings[i].name in values && settings[i].value == values[settings[i].name])
    && (forall i, j | 0 <= i < j < |settings| :: settings[i].name != settings[j].name)
    && forall name | name in values :: exists i | 0 <= i < |settings| :: settings[i].name == name
  }

  /** The parser finds the key under its own name, and no other name leads there. */
  predicate Undisputed(keys: seq<Option<string>>, values: map<string, string>, key: string) {
    && Position(keys, key).Some? && Target(keys, key) == Position(keys, key)
    && forall name | name in values && name != key :: Target(keys, name) != Position(keys, key)
  }

  /** So it is where all names are keys of the file, none of them ignored or an exception, and no two keys fold alike. */
  lemma KeysAreUndisputed(keys: seq<Option<string>>, values: map<string, string>, key: string)
    requires NoCollision(keys) && key in values
    requires forall name | name in values :: Position(keys, name).Some? && !Ignored(name) && Exception(name).None?
    ensures Undisputed(keys, values, key)
  {
    hide Target, Position, Ignored, Exception, NoCollision;
    forall name | name in values ensures Target(keys, name) == Position(keys, name) && keys[Position(keys, name).value] == Some(name) {
      NoCollisionNoShadow(keys, name);
      AppliedToTheSameKey(keys, name);
      PositionIsOfKey(keys, name);
    }
  }

  lemma MeantByItem(keys: seq<Option<string>>, settings: seq<Setting>, values: map<string, string>, key: string) returns (i: nat)
    requires Itemises(settings, values) && Undisputed(keys, values, key) && key in values
    ensures MeantBy(keys, settings, i, Position(keys, key).value) && settings[i].value == values[key]
  {
    hide Target, Position;
    i :| 0 <= i < |settings| && settings[i].name == key;
    forall j | 0 <= j < |settings| && j != i ensures Target(keys, settings[j].name) != Position(keys, key) {
      assert settings[j].name != settings[i].name && settings[j].name in values;
    }
  }

  /** Applied as an item of the stored file, the value ends up in the part of its own key, in the shape it has there. */
  lemma {:induction false} ItIsApplied(parts: seq<string>, settings: seq<Setting>, values: map<string, string>, key: string)
    requires Itemises(settings, values) && Undisputed(Keys(parts), values, key) && key in values
    ensures Keys(ApplyAll(parts, settings)) == Keys(parts)
    ensures RawAt(ApplyAll(parts, settings), key) == Render(ShapeOf(RawAt(parts, key)), values[key]).GetOr(RawAt(parts, key))
  {
    hide Target, Position, Keys, KeyOf, RawOf, Render, ShapeOf, ApplyAll, Meant, PutAll, MeantBy, Itemises;
    var keys := Keys(parts);
    var p := Position(keys, key).value;
    PositionIsOfKey(keys, key);
    KeysAre(parts, p);
    ApplyAllKeepsKeys(parts, settings);
    var i := MeantByItem(keys, settings, values, key);
    OneMeant(keys, settings, i, p);
    PartsAreIndependent(parts, settings, p);
    PutAllSettles(parts[p], [values[key]]);
    SettledOnce(RawOf(parts[p]), values[key]);
  }

  lemma KeysAre(parts: seq<string>, p: nat)
    ensures |Keys(parts)| == |parts|
    ensures p < |parts| ==> Keys(parts)[p] == KeyOf(parts[p])
  {
  }

  lemma SettledOnce(raw: string, value: string)
    ensures Settled(raw, [value]) == Render(ShapeOf(raw), value).GetOr(raw)
  {
    hide Render, ShapeOf;
    assert [value][..0] == [];
    assert Settled(raw, []) == raw;
  }

  /**
   From the form to the game: whatever the form accepted against one state of the file is later
   applied, to the same key and with the rendering the form foresaw, if by then the stored name still
   leads to that key and alone, and the shape of its value is the same.
   */
  lemma FormAgreesWithApply(seen: seq<string>, raw: seq<Entry>, printable: string -> bool, parts: seq<string>, settings: seq<Setting>,
                            values: map<string, string>, key: string)
    requires Classifies(printable) && CheckAll(seen, raw, printable).Ok? && key in CheckAll(seen, raw, printable).value
    requires key in values && values[key] == CheckAll(seen, raw, printable).value[key]
    requires Itemises(settings, values) && Undisputed(Keys(parts), values, key)
    requires ShapeOf(RawAt(parts, key)) == ShapeOf(RawAt(seen, key))
    ensures Render(ShapeOf(RawAt(seen, key)), values[key]) == Some(RawAt(ApplyAll(parts, settings), key))
  {
    hide RawAt, Render, ShapeOf, Undisputed, Itemises, CheckAll;
    AcceptedIsGood(seen, raw, printable);
    assert Good(seen, key, values[key]);
    ItIsApplied(parts, settings, values, key);
  }

  /** Is the value let through by the shape that the part has by then? */
  predicate LetThrough(raw: string, values: seq<string>, n: nat)
    requires n < |values|
  {
    Render(ShapeOf(Settled(raw, values[..n])), values[n]).Some?
  }

  predicate LastLetThrough(raw: string, values: seq<string>, n: nat) {
    n < |values| && LetThrough(raw, values, n) && forall m | n < m < |values| :: !LetThrough(raw, values, m)
  }

  lemma LetThroughBefore(raw: string, values: seq<string>, k: nat, n: nat)
    requires n < k <= |values|
    ensures LetThrough(raw, values[..k], n) == LetThrough(raw, values, n)
  {
    hide Settled, Render, ShapeOf;
    assert values[..k][..n] == values[..n];
  }

  lemma NoneLater(raw: string, values: seq<string>, n: nat)
    requires n < |values| && forall m | n <= m < |values| :: !LetThrough(raw, values, m)
    ensures Settled(raw, values) == Settled(raw, values[..n])
    decreases |values|
  {
    hide Render, ShapeOf;
    var k := |values| - 1;
    assert !LetThrough(raw, values, k);
    if n < k {
      forall m | n <= m < k ensures !LetThrough(raw, values[..k], m) {
        LetThroughBefore(raw, values, k, m);
      }
      NoneLater(raw, values[..k], n);
      assert values[..k][..n] == values[..n];
    }
  }

  /** A part settles at the rendering of the last value that is let through, or stays as it is if none is. */
  lemma SettledAtLast(raw: string, values: seq<string>)
    ensures (forall n | 0 <= n < |values| :: !LetThrough(raw, values, n)) ==> Settled(raw, values) == raw
    ensures forall n: nat :: LastLetThrough(raw, values, n) ==>
              Render(ShapeOf(Settled(raw, values[..n])), values[n]) == Some(Settled(raw, values))
  {
    hide Render, ShapeOf;
    if forall n | 0 <= n < |values| :: !LetThrough(raw, values, n) {
      if values != [] {
        NoneLater(raw, values, 0);
      }
    }
    forall n: nat | LastLetThrough(raw, values, n)
      ensures Render(ShapeOf(Settled(raw, values[..n])), values[n]) == Some(Settled(raw, values))
    {
      assert values[..n + 1][..n] == values[..n];
      if n + 1 < |values| {
        NoneLater(raw, values, n + 1);
      } else {
        assert values[..n + 1] == values;
      }
    }
  }

  lemma {:induction false} SomeIsLast(raw: string, values: seq<string>, k: nat) returns (n: nat)
    requires k < |values| && LetThrough(raw, values, k)
    ensures LastLetThrough(raw, values, n)
    decreases |values| - k
  {
    hide LetThrough;
    if m :| k < m < |values| && LetThrough(raw, values, m) {
      n := SomeIsLast(raw, values, m);
    } else {
      n := k;
    }
  }

  /**
   Whatever else the stored file holds, and whatever became of the configuration since: what the form
   foresaw for a key is what the key has after the run exactly if, of all values that reach the key in
   the order of the file, the last one let through renders to it, or none is and it is there already.
   */
  lemma FormAgreesExactly(seen: seq<string>, raw: seq<Entry>, printable: string -> bool, parts: seq<string>, settings: seq<Setting>, key: string)
    requires Classifies(printable) && CheckAll(seen, raw, printable).Ok? && key in CheckAll(seen, raw, printable).value
    requires Position(Keys(parts), key).Some?
    ensures var foreseen := Render(ShapeOf(RawAt(seen, key)), CheckAll(seen, raw, printable).value[key]);
            var values := Meant(Keys(parts), settings, Position(Keys(parts), key).value);
            var now := RawAt(parts, key);
            && foreseen.Some?
            && (RawAt(ApplyAll(parts, settings), key) == foreseen.value
                <==> (exists n: nat :: LastLetThrough(now, values, n) && Render(ShapeOf(Settled(now, values[..n])), values[n]) == foreseen)
                     || ((forall n | 0 <= n < |values| :: !LetThrough(now, values, n)) && now == foreseen.value))
  {
    hide Position, Keys, KeyOf, RawOf, Render, ShapeOf, ApplyAll, Meant, PutAll, CheckAll, Settled, LetThrough, LastLetThrough;
    AcceptedIsGood(seen, raw, printable);
    assert Good(seen, key, CheckAll(seen, raw, printable).value[key]);
    var keys := Keys(parts);
    var p := Position(keys, key).value;
    var values, now := Meant(keys, settings, p), RawAt(parts, key);
    PositionIsOfKey(keys, key);
    KeysAre(parts, p);
    ApplyAllKeepsKeys(parts, settings);
    PartsAreIndependent(parts, settings, p);
    PutAllSettles(parts[p], values);
    SettledAtLast(now, values);
    if k :| 0 <= k < |values| && LetThrough(now, values, k) {
      var n := SomeIsLast(now, values, k);
    }
    LastIsThrough(now, values);
  }

  lemma LastIsThrough(raw: string, values: seq<string>)
    ensures forall n: nat :: LastLetThrough(raw, values, n) ==> n < |values| && LetThrough(raw, values, n)
  {
  }

  /** And what the form stores always survives the file. */
  lemma StoredIsWritable(parts: seq<string>, raw: seq<Entry>, printable: string -> bool, existing: map<string, string>)
    requires Classifies(printable) && CheckAll(parts, raw, printable).Ok? && AllWritable(existing)
    ensures AllWritable(existing + CheckAll(parts, raw, printable).value)
  {
    hide CheckAll, Writable;
    AcceptedIsGood(parts, raw, printable);
    var settings := CheckAll(parts, raw, printable).value;
    forall name | name in settings ensures Writable(name) && OneLine(settings[name]) {
      assert Good(parts, name, settings[name]);
      WordIsWritable(name);
    }
  }

  // ---------------------------------------------------------------------------------------------
  // A file on which the agreement fails
  // ---------------------------------------------------------------------------------------------

  /** Two keys that fold alike, of which the second alone has a short name. */
  const SHADOWED := ["b_Foo=x", "bFoo=y"]

  lemma ShadowedKeys()
    ensures SHADOWED == [Part("b_Foo", "x"), Part("bFoo", "y")] && Keys(SHADOWED) == [Some("b_Foo"), Some("bFoo")]
  {
    assert SHADOWED[0] == Part("b_Foo", "x") && SHADOWED[1] == Part("bFoo", "y");
    PartReads("b_Foo", "x");
    PartReads("bFoo", "y");
    hide KeyOf;
    assert Keys(SHADOWED)[0] == Some("b_Foo") && Keys(SHADOWED)[1] == Some("bFoo");
  }

  lemma ShadowedJoin()
    ensures Join(SHADOWED) == "b_Foo=x,bFoo=y"
  {
    assert SHADOWED[1..] == ["bFoo=y"];
    assert Join(["bFoo=y"]) == "bFoo=y";
  }

  lemma ShadowedParts()
    ensures Split("b_Foo=x,bFoo=y") == SHADOWED
  {
    PlainPasses("b_Foo=x");
    PlainPasses("bFoo=y");
    hide Run, Split, Join;
    ShadowedJoin();
    SplitOfJoin(SHADOWED);
  }

  lemma ShadowedPositions(keys: seq<Option<string>>)
    requires keys == [Some("b_Foo"), Some("bFoo")]
    ensures Position(keys, "b_Foo") == Some(0) && Position(keys, "bFoo") == Some(1)
  {
    assert keys[0] == Some("b_Foo") && keys[1] == Some("bFoo");
  }

  lemma ShadowedForms(keys: seq<Option<string>>)
    requires keys == [Some("b_Foo"), Some("bFoo")]
    ensures Folded(keys, "foo") == Some("bFoo") && Folded(keys, "bfoo") == Some("b_Foo")
  {
    Foldings();
    hide Normalise;
    assert Forms("b_Foo") == ["bfoo"] && Forms("bFoo") == ["bfoo", "foo"];
    assert keys[0] == Some("b_Foo") && keys[1] == Some("bFoo");
    assert keys[..1] == [Some("b_Foo")] && keys[..1][..0] == [];
    assert Folded(keys[..1], "foo") == None && Folded(keys[..1], "bfoo") == Some("b_Foo");
  }

  lemma NoExceptions()
    ensures Exception("FOO").None? && Exception("bFoo").None? && !Ignored("bFoo")
  {
  }

  lemma ShadowedNames(keys: seq<Option<string>>)
    requires keys == [Some("b_Foo"), Some("bFoo")]
    ensures Resolve(keys, "FOO") == Some("bFoo") && Resolve(keys, "bFoo") == Some("b_Foo")
    ensures Position(keys, "bFoo") == Some(1) && Target(keys, "bFoo") == Some(0)
  {
    ShadowedPositions(keys);
    ShadowedForms(keys);
    Foldings();
    NoExceptions();
    hide Normalise, Position, Folded, Exception, Ignored;
  }

  /** A bare word in place of a bare word. */
  lemma WordForWord(key: string, was: string, value: string)
    requires Trimmed(key) && '=' !in key && IsToken(was) && IsToken(value) && was != "True" && was != "False" && was != value
    ensures Render(ShapeOf(RawOf(Part(key, was))), value) == Some(value) && Put(Part(key, was), value) == Part(key, value)
  {
    hide IsToken, KeyOf, RawOf, Part;
    TokenIsPlain(was);
    TokenIsPlain(value);
    PartReads(key, was);
  }

  /**
   On such a file the form accepts the short name and stores the second key; applied from the stored
   file, the value goes to the first one, and the second keeps what it had.
   */
  lemma ShadowedKey(printable: string -> bool)
    requires printable("z")
    ensures Split("b_Foo=x,bFoo=y") == SHADOWED
    ensures CheckAll(SHADOWED, [Entry("FOO", Str("z"))], printable) == Ok(map["bFoo" := "z"])
    ensures ApplyAll(SHADOWED, [Setting("bFoo", "z")]) == ["b_Foo=z", "bFoo=y"]
  {
    hide Resolve, Position, Target, Keys, Render, ShapeOf, RawOf, Split, Put, Normalise;
    ShadowedParts();
    ShadowedKeys();
    ShadowedNames(Keys(SHADOWED));
    Foldings();
    WordForWord("b_Foo", "x", "z");
    WordForWord("bFoo", "y", "z");
    var entry := Entry("FOO", Str("z"));
    assert [entry][..0] == [];
    assert CheckAll(SHADOWED, [], printable) == Ok(map[]);
    assert Check(SHADOWED, map[], entry, printable) == Ok(Setting("bFoo", "z"));
    assert CheckAll(SHADOWED, [entry], printable) == Ok(map[]["bFoo" := "z"]);
    var setting := Setting("bFoo", "z");
    assert [setting][..0] == [];
    assert ApplyAll(SHADOWED, []) == SHADOWED;
    assert Part("b_Foo", "z") == "b_Foo=z";
    assert Apply(SHADOWED, setting) == SHADOWED[0 := "b_Foo=z"];
  }

  lemma Foldings()
    ensures Normalise("b_Foo") == "bfoo" && Normalise("bFoo") == "bfoo" && Normalise("Foo") == "foo" && Normalise("FOO") == "foo"
    ensures "bFoo"[1..] == "Foo"
  {
  }
}
