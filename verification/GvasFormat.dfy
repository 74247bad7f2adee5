/**
 What lib/palwarden_gvas.py reads, as functions of the bytes that are left. `at` is the position of
 the first of them in the file; it only appears in messages and extents. A reader may run past the
 end of the container it is in: nothing bounds it but the end of the file.
 */
module GvasFormat {
  import opened Wrappers
  import opened Bytes
  import opened Text

  const MAX_ERRORS := 64
  const MAX_ERROR_LEN := 160
  const MAX_FSTRING := 0x10_0000

  /** Scalars that are not decoded further (floats, GUIDs) are `Raw`. */
  datatype Value =
    | Num(n: int)
    | Flag(b: bool)
    | Text(s: string)
    | Raw(bytes: seq<Byte>)
    | Blob(count: nat)
    | List(items: seq<Value>)
    | Dict(fields: map<string, Value>)

  /** The outcome of a read: the value and how many bytes it took, or the message of the parse error. */
  datatype Read<+T> = Got(value: T, used: nat) | Failed(why: string)
  {
    predicate IsFailure() { Failed? }

    function PropagateFailure<U>(): Read<U>
      requires Failed?
    {
      Failed(why)
    }

    function Extract(): (T, nat)
      requires Got?
    {
      (value, used)
    }

    function Plus(n: nat): Read<T> {
      if Got? then Got(value, used + n) else this
    }

    function Map<U>(f: T -> U): Read<U> {
      if Got? then Got(f(value), used) else Failed(why)
    }
  }

  // ---------------------------------------------------------------------------------------------
  // Primitives
  // ---------------------------------------------------------------------------------------------

  function Take(r: seq<Byte>, at: nat, n: nat): (o: Read<seq<Byte>>)
    ensures o.Got? ==> o.used == n <= |r|
  {
    if n <= |r| then Got(r[..n], n) else Failed("eof reading " + Decimal(n) + " bytes at " + Decimal(at))
  }

  function TakeUnsigned(r: seq<Byte>, at: nat, width: nat): (o: Read<nat>)
    ensures o.Got? ==> o.used == width <= |r|
  {
    var (b, n) :- Take(r, at, width);
    Got(Unsigned(b), n)
  }

  function TakeSigned(r: seq<Byte>, at: nat, width: nat): (o: Read<int>)
    ensures o.Got? ==> o.used == width <= |r|
  {
    var (b, n) :- Take(r, at, width);
    Got(Signed(b), n)
  }

  /** A positive length counts ASCII bytes with a terminator, a negative one UTF-16 units with one. */
  function FString(r: seq<Byte>, at: nat): (o: Read<string>)
    ensures o.Got? ==> 4 <= o.used <= |r|
  {
    var (n, k) :- TakeSigned(r, at, 4);
    if n == 0 then Got("", 4)
    else if n < 0 then
      if -n > MAX_FSTRING then Failed("implausible utf-16 string length " + Decimal(-n))
      else
        var (b, m) :- Take(r[4..], at + 4, 2 * -n);
        Got(DecodeUtf16(b[..m - 2]), 4 + m)
    else
      if n > MAX_FSTRING then Failed("implausible string length " + Decimal(n))
      else
        var (b, m) :- Take(r[4..], at + 4, n);
        Got(DecodeAscii(b[..m - 1]), 4 + m)
  }

  function OptionalGuid(r: seq<Byte>, at: nat): (o: Read<()>)
    ensures o.Got? ==> 1 <= o.used <= |r|
  {
    var (flag, k) :- TakeUnsigned(r, at, 1);
    if flag == 0 then Got((), 1)
    else
      var (b, m) :- Take(r[1..], at + 1, 16);
      Got((), 17)
  }

  // ---------------------------------------------------------------------------------------------
  // Scalars
  // ---------------------------------------------------------------------------------------------

  /** A bare scalar inside an array, a map or a set. */
  function ScalarElement(typeName: string, r: seq<Byte>, at: nat): (o: Read<Value>)
    ensures o.Got? ==> 1 <= o.used <= |r|
  {
    if typeName == "NameProperty" || typeName == "EnumProperty" || typeName == "StrProperty" then FString(r, at).Map(s => Text(s))
    else if typeName == "IntProperty" then TakeSigned(r, at, 4).Map(n => Num(n))
    else if typeName == "Int64Property" then TakeSigned(r, at, 8).Map(n => Num(n))
    else if typeName == "UInt32Property" then TakeUnsigned(r, at, 4).Map(n => Num(n))
    else if typeName == "FloatProperty" then Take(r, at, 4).Map(b => Raw(b))
    else if typeName == "BoolProperty" then TakeUnsigned(r, at, 1).Map(n => Flag(n > 0))
    else Failed("unknown element type " + typeName)
  }

  predicate IsScalarElement(typeName: string) {
    typeName in {"NameProperty", "EnumProperty", "StrProperty", "IntProperty", "Int64Property", "UInt32Property",
                 "FloatProperty", "BoolProperty"}
  }

  predicate IsScalar(typeName: string) {
    typeName in {"IntProperty", "FixedPoint64Property", "Int64Property", "UInt32Property", "UInt16Property", "FloatProperty",
                 "StrProperty", "NameProperty", "BoolProperty", "EnumProperty", "ByteProperty"}
  }

  /** The value after the optional-guid flag, by type. */
  function AfterGuid(typeName: string, r: seq<Byte>, at: nat): (o: Read<Value>)
    ensures o.Got? ==> o.used <= |r|
  {
    if typeName == "IntProperty" || typeName == "FixedPoint64Property" then TakeSigned(r, at, 4).Map(n => Num(n))
    else if typeName == "Int64Property" then TakeSigned(r, at, 8).Map(n => Num(n))
    else if typeName == "UInt32Property" then TakeUnsigned(r, at, 4).Map(n => Num(n))
    else if typeName == "UInt16Property" then TakeUnsigned(r, at, 2).Map(n => Num(n))
    else if typeName == "FloatProperty" then Take(r, at, 4).Map(b => Raw(b))
    else FString(r, at).Map(s => Text(s))
  }

  /** Enums and bytes name their enum type before the flag; a byte of no enum is a number. */
  function EnumOrByte(typeName: string, r: seq<Byte>, at: nat): (o: Read<Value>)
    ensures o.Got? ==> o.used <= |r|
  {
    var (enumType, e) :- FString(r, at);
    var (_, g) :- OptionalGuid(r[e..], at + e);
    var k := e + g;
    if typeName == "ByteProperty" && enumType == "None" then TakeUnsigned(r[k..], at + k, 1).Map(n => Num(n)).Plus(k)
    else FString(r[k..], at + k).Map(s => Text(s)).Plus(k)
  }

  /** The oddball: the value comes before the flag. */
  function BoolScalar(r: seq<Byte>, at: nat): (o: Read<Value>)
    ensures o.Got? ==> o.used <= |r|
  {
    var (b, k) :- TakeUnsigned(r, at, 1);
    var (_, g) :- OptionalGuid(r[1..], at + 1);
    Got(Flag(b > 0), 1 + g)
  }

  /** A scalar property, from the byte after its size field. */
  function Scalar(typeName: string, r: seq<Byte>, at: nat): (o: Read<Value>)
    ensures o.Got? ==> o.used <= |r|
  {
    if typeName == "BoolProperty" then BoolScalar(r, at)
    else if typeName == "EnumProperty" || typeName == "ByteProperty" then EnumOrByte(typeName, r, at)
    else
      var (_, g) :- OptionalGuid(r, at);
      AfterGuid(typeName, r[g..], at + g).Plus(g)
  }

  // ---------------------------------------------------------------------------------------------
  // Headers
  // ---------------------------------------------------------------------------------------------

  datatype PropertyHead = End | Head(name: string, typeName: string, size: nat)

  function ReadHead(r: seq<Byte>, at: nat): (o: Read<PropertyHead>)
    ensures o.Got? ==> 4 <= o.used <= |r|
    ensures o.Got? && o.value.Head? ==> 16 <= o.used && o.value.name != "" && o.value.name != "None"
  {
    var (name, a) :- FString(r, at);
    if name == "None" then Got(End, a)
    else if name == "" then Failed("empty property name")
    else
      var (typeName, b) :- FString(r[a..], at + a);
      var (size, c) :- TakeUnsigned(r[a + b..], at + a + b, 8);
      Got(Head(name, typeName, size), a + b + c)
  }

  /** The type-specific header of a container, before the bytes that `size` counts. */
  datatype Container = StructOf(structType: string) | ArrayOf(elementType: string) | MapOf(keyType: string, valueType: string)
                     | SetOf(elementType: string)

  predicate IsContainer(typeName: string) {
    typeName in {"StructProperty", "ArrayProperty", "MapProperty", "SetProperty"}
  }

  function ReadContainer(typeName: string, r: seq<Byte>, at: nat): (o: Read<Container>)
    ensures o.Got? ==> 5 <= o.used <= |r|
  {
    var (first, a) :- FString(r, at);
    var (rest, b) :- ContainerRest(typeName, first, r[a..], at + a);
    var (_, g) :- OptionalGuid(r[a + b..], at + a + b);
    Got(rest, a + b + g)
  }

  /** What follows the first type name and precedes the flag: a struct id, the value type of a map, or nothing. */
  function ContainerRest(typeName: string, first: string, r: seq<Byte>, at: nat): (o: Read<Container>)
    ensures o.Got? ==> o.used <= |r|
  {
    if typeName == "StructProperty" then Take(r, at, 16).Map(_ => StructOf(first))
    else if typeName == "MapProperty" then FString(r, at).Map(second => MapOf(first, second))
    else Got(if typeName == "ArrayProperty" then ArrayOf(first) else SetOf(first), 0)
  }

  // ---------------------------------------------------------------------------------------------
  // Unknown types
  // ---------------------------------------------------------------------------------------------

  /**
   Which characters beyond ASCII `str.isprintable` lets through is left open: the constant has no
   value, so that whatever is proved holds for every answer.
   */
  const UNICODE_PRINTABLE: char -> bool

  predicate Printable(s: string) {
    forall i | 0 <= i < |s| :: if s[i] as int < 128 then 32 <= s[i] as int < 127 else UNICODE_PRINTABLE(s[i])
  }

  predicate EndsWith(s: string, suffix: string) {
    |suffix| <= |s| && s[|s| - |suffix|..] == suffix
  }

  predicate PlausibleName(name: string) {
    0 < |name| <= 120 && Printable(name)
  }

  predicate PlausibleType(typeName: string) {
    EndsWith(typeName, "Property") && 0 < |typeName| <= 64
  }

  /** Do the bytes look like the rest of a property list? Only a peek. */
  predicate Plausible(r: seq<Byte>, at: nat) {
    var name := FString(r, at);
    name.Got? &&
    (name.value == "None" ||
     (PlausibleName(name.value) &&
      var typeName := FString(r[name.used..], at + name.used);
      typeName.Got? && PlausibleType(typeName.value)))
  }

  /** An unknown type under the common convention: a flag, then `size` bytes, then a plausible property list. */
  function SkipUnknown(size: nat, r: seq<Byte>, at: nat): (n: Option<nat>)
    ensures n.Some? ==> 1 <= n.value <= |r|
  {
    var g := OptionalGuid(r, at);
    if g.Failed? || g.used + size > |r| || !Plausible(r[g.used + size..], at + g.used + size) then None
    else Some(g.used + size)
  }

  // ---------------------------------------------------------------------------------------------
  // Values and property lists
  // ---------------------------------------------------------------------------------------------

  /** A value read together with the notes recorded on the way; the notes survive a failure. */
  datatype Out<+T> = Out(result: Read<T>, log: seq<string>)

  /** What became of one property; `Skipped` has been noted and resynchronised. */
  datatype Outcome = Kept(value: Value, used: nat) | Skipped(used: nat) | Broken(why: string)

  /** A property that did not break its list. `extent` is where a container's value lies in the file. */
  datatype Item = Item(name: string, extent: Option<(nat, nat)>, value: Option<Value>)

  datatype Walked = Walked(items: seq<Item>, finish: Read<()>, log: seq<string>)

  function Note(path: string, why: string): string {
    path + ": " + why
  }

  function Join(path: string, name: string): string {
    if path == "" then name else path + "." + name
  }

  function Indexed(path: string, suffix: string, i: nat): string {
    path + suffix + "[" + Decimal(i) + "]"
  }

  /** Duplicate names keep the last value. */
  function Fields(items: seq<Item>): map<string, Value> {
    if items == [] then map[]
    else
      var last := items[|items| - 1];
      var before := Fields(items[..|items| - 1]);
      if last.value.Some? then before[last.name := last.value.value] else before
  }

  function Hex(bytes: seq<Byte>): string {
    if bytes == [] then ""
    else [HexDigit(bytes[0] / 16), HexDigit(bytes[0] % 16)] + Hex(bytes[1..])
  }

  /** A map key as text. Undecoded scalars are rendered byte by byte. */
  function KeyText(key: Value): string {
    match key
    case Text(s) => s
    case Num(n) => Decimal(n)
    case Flag(b) => if b then "True" else "False"
    case Raw(bytes) => Hex(bytes)
    case _ => ""
  }

  /**
   The containment rule: whatever the inner reader did, and however far it ran, the value stands only
   if it took exactly `size` bytes; otherwise one note is made and the reader continues at the end.
   */
  function Contain(inner: Out<Value>, size: nat, at: nat, path: string): (Outcome, seq<string>) {
    match inner.result
    case Got(v, used) =>
      if used == size then (Kept(v, size), inner.log)
      else (Skipped(size), inner.log + [Note(path, "value ended at " + Decimal(at + used) + ", expected " + Decimal(at + size))])
    case Failed(why) => (Skipped(size), inner.log + [Note(path, why)])
  }

  /** A property list up to and including its "None". */
  function Walk(r: seq<Byte>, at: nat, path: string): (w: Walked)
    ensures w.finish.Got? ==> 4 <= w.finish.used <= |r|
    decreases |r|, 0
  {
    match ReadHead(r, at)
    case Failed(why) => Walked([], Failed(why), [])
    case Got(End, h) => Walked([], Got((), h), [])
    case Got(Head(name, typeName, size), h) =>
      var (outcome, log) := Property(r[h..], at + h, typeName, size, Join(path, name));
      if outcome.Broken? then Walked([], Failed(outcome.why), log)
      else
        var next := h + outcome.used;
        var w := Walk(r[next..], at + next, path);
        var item := ItemOf(name, Extent(typeName, size, r[h..], at + h), outcome);
        Walked([item] + w.items, w.finish.Plus(next), log + w.log)
  }

  function Extent(typeName: string, size: nat, r: seq<Byte>, at: nat): Option<(nat, nat)> {
    if IsContainer(typeName) then
      match ReadContainer(typeName, r, at)
      case Got(_, k) => Some((at + k, at + k + size))
      case Failed(_) => None
    else None
  }

  /** One property, from the byte after its size field. */
  function Property(r: seq<Byte>, at: nat, typeName: string, size: nat, path: string): (o: (Outcome, seq<string>))
    ensures !o.0.Broken? ==> o.0.used <= |r|
    decreases |r|, 5
  {
    if IsScalar(typeName) then
      match Scalar(typeName, r, at)
      case Got(v, used) => (Kept(v, used), [])
      case Failed(why) => (Broken(why), [])
    else if IsContainer(typeName) then
      match ReadContainer(typeName, r, at)
      case Failed(why) => (Broken(why), [])
      case Got(container, k) =>
        if k + size > |r| then (Broken("value extent " + Decimal(size) + " exceeds file"), [])
        else
          var (outcome, log) := Contain(ContainerValue(r[k..], at + k, container, size, path), size, at + k, path);
          (if outcome.Kept? then Kept(outcome.value, k + size) else Skipped(k + size), log)
    else
      match SkipUnknown(size, r, at)
      case Some(n) => (Skipped(n), [Note(path, "skipped unknown property type " + typeName)])
      case None => (Broken("unknown property type " + typeName), [])
  }

  function ContainerValue(r: seq<Byte>, at: nat, container: Container, size: nat, path: string): (o: Out<Value>)
    ensures o.result.Got? ==> 1 <= o.result.used <= |r|
    decreases |r|, 4
  {
    match container
    case StructOf(structType) => StructValue(r, at, structType, path)
    case ArrayOf(elementType) => ArrayValue(r, at, elementType, size, path)
    case MapOf(keyType, valueType) =>
      (match Take(r, at, 4)
       case Failed(why) => Out(Failed(why), [])
       case Got(_, _) =>
         match TakeUnsigned(r[4..], at + 4, 4)
         case Failed(why) => Out(Failed(why), [])
         case Got(count, _) =>
           var o := MapEntries(r[8..], at + 8, keyType, valueType, 0, count, path);
           Out(o.result.Map(m => Dict(m)).Plus(8), o.log))
    case SetOf(elementType) =>
      match Take(r, at, 4)
      case Failed(why) => Out(Failed(why), [])
      case Got(_, _) =>
        match TakeUnsigned(r[4..], at + 4, 4)
        case Failed(why) => Out(Failed(why), [])
        case Got(count, _) =>
          var o := SetItems(r[8..], at + 8, elementType, 0, count, path);
          Out(o.result.Map(l => List(l)).Plus(8), o.log)
  }

  /** Structs of a fixed layout: field names and field widths, read as opaque bytes. */
  function FixedFields(structType: string): seq<string> {
    if structType == "Vector" then ["x", "y", "z"]
    else if structType == "Quat" then ["x", "y", "z", "w"]
    else if structType == "LinearColor" then ["r", "g", "b", "a"]
    else []
  }

  function RawFields(names: seq<string>, width: nat, r: seq<Byte>, at: nat): (o: Read<map<string, Value>>)
    ensures o.Got? ==> o.used == |names| * width <= |r|
  {
    if names == [] then Got(map[], 0)
    else
      var k := |names| - 1;
      var (fields, used) :- RawFields(names[..k], width, r, at);
      var (b, n) :- Take(r[used..], at + used, width);
      Got(fields[names[k] := Raw(b)], used + n)
  }

  /** A read that failed for a prefix of the fields fails for all of them alike. */
  lemma {:induction false} RawFieldsFail(names: seq<string>, width: nat, r: seq<Byte>, at: nat, k: nat)
    requires k <= |names| && RawFields(names[..k], width, r, at).Failed?
    ensures RawFields(names, width, r, at) == RawFields(names[..k], width, r, at)
  {
    if k < |names| {
      assert names[..|names| - 1][..k] == names[..k];
      RawFieldsFail(names[..|names| - 1], width, r, at, k);
    } else {
      assert names[..k] == names;
    }
  }

  predicate IsFixedStruct(structType: string) {
    structType in {"Vector", "Quat", "LinearColor", "DateTime", "Guid"}
  }

  function FixedStruct(r: seq<Byte>, at: nat, structType: string): (o: Read<Value>)
    requires IsFixedStruct(structType)
    ensures o.Got? ==> 1 <= o.used <= |r|
  {
    if structType == "DateTime" then TakeUnsigned(r, at, 8).Map(n => Num(n))
    else if structType == "Guid" then Take(r, at, 16).Map(b => Raw(b))
    else RawFields(FixedFields(structType), if structType == "LinearColor" then 4 else 8, r, at).Map(m => Dict(m))
  }

  function StructValue(r: seq<Byte>, at: nat, structType: string, path: string): (o: Out<Value>)
    ensures o.result.Got? ==> 1 <= o.result.used <= |r|
    decreases |r|, 1
  {
    if IsFixedStruct(structType) then Out(FixedStruct(r, at, structType), [])
    else
      var w := Walk(r, at, path);
      Out(w.finish.Map(_ => Dict(Fields(w.items))), w.log)
  }

  /** The element header of a struct array: name, property type, inner size, struct type, id, flag. */
  function StructArrayHead(r: seq<Byte>, at: nat): (o: Read<(string, string)>)
    ensures o.Got? ==> o.used <= |r|
  {
    var (name, a) :- FString(r, at);
    var (_, b) :- FString(r[a..], at + a);
    var (_, c) :- TakeUnsigned(r[a + b..], at + a + b, 8);
    var (structType, d) :- FString(r[a + b + c..], at + a + b + c);
    var (_, e) :- Take(r[a + b + c + d..], at + a + b + c + d, 16);
    var (_, f) :- Take(r[a + b + c + d + e..], at + a + b + c + d + e, 1);
    Got((name, structType), a + b + c + d + e + f)
  }

  function ArrayValue(r: seq<Byte>, at: nat, elementType: string, size: nat, path: string): (o: Out<Value>)
    ensures o.result.Got? ==> 1 <= o.result.used <= |r|
    decreases |r|, 3
  {
    match TakeUnsigned(r, at, 4)
    case Failed(why) => Out(Failed(why), [])
    case Got(count, _) =>
      if elementType == "StructProperty" then
        match StructArrayHead(r[4..], at + 4)
        case Failed(why) => Out(Failed(why), [])
        case Got((name, structType), h) =>
          var o := StructItems(r[4 + h..], at + 4 + h, structType, 0, count, path + "." + name);
          Out(o.result.Map(l => List(l)).Plus(4 + h), o.log)
      else if elementType == "ByteProperty" then
        if size == count + 4 then Out(Take(r[4..], at + 4, count).Map(_ => Blob(count)).Plus(4), [])
        else Out(Failed("labelled ByteProperty array"), [])
      else if elementType == "Guid" || IsScalarElement(elementType) then
        Out(FlatItems(r[4..], at + 4, elementType, count).Map(l => List(l)).Plus(4), [])
      else Out(Failed("unknown array element type " + elementType), [])
  }

  function FlatElement(elementType: string, r: seq<Byte>, at: nat): (o: Read<Value>)
    ensures o.Got? ==> 1 <= o.used <= |r|
  {
    if elementType == "Guid" then Take(r, at, 16).Map(b => Raw(b)) else ScalarElement(elementType, r, at)
  }

  /** `count` scalars in a row. */
  function FlatItems(r: seq<Byte>, at: nat, elementType: string, count: nat): (o: Read<seq<Value>>)
    ensures o.Got? ==> o.used <= |r|
    decreases count
  {
    if count == 0 then Got([], 0)
    else
      var (v, k) :- FlatElement(elementType, r, at);
      Resumed([v], k, FlatItems(r[k..], at + k, elementType, count - 1))
  }

  function StructItems(r: seq<Byte>, at: nat, structType: string, i: nat, count: nat, path: string): (o: Out<seq<Value>>)
    requires i <= count
    ensures o.result.Got? ==> o.result.used <= |r|
    decreases |r|, 2
  {
    if i == count then Out(Got([], 0), [])
    else
      var first := StructValue(r, at, structType, Indexed(path, "", i));
      match first.result
      case Failed(why) => Out(Failed(why), first.log)
      case Got(v, k) =>
        var rest := StructItems(r[k..], at + k, structType, i + 1, count, path);
        Out(rest.result.Map(vs => [v] + vs).Plus(k), first.log + rest.log)
  }

  /** A header-less element; a struct is a GUID where `guid` says so and a property list elsewhere. */
  function Element(r: seq<Byte>, at: nat, typeName: string, guid: bool, path: string): (o: Out<Value>)
    ensures o.result.Got? ==> 1 <= o.result.used <= |r|
    decreases |r|, 1
  {
    if typeName == "StructProperty" then
      if guid then Out(Take(r, at, 16).Map(b => Raw(b)), [])
      else
        var w := Walk(r, at, path);
        Out(w.finish.Map(_ => Dict(Fields(w.items))), w.log)
    else Out(ScalarElement(typeName, r, at), [])
  }

  function SetItems(r: seq<Byte>, at: nat, elementType: string, i: nat, count: nat, path: string): (o: Out<seq<Value>>)
    requires i <= count
    ensures o.result.Got? ==> o.result.used <= |r|
    decreases |r|, 2
  {
    if i == count then Out(Got([], 0), [])
    else
      var first := Element(r, at, elementType, false, Indexed(path, "", i));
      match first.result
      case Failed(why) => Out(Failed(why), first.log)
      case Got(v, k) =>
        var rest := SetItems(r[k..], at + k, elementType, i + 1, count, path);
        Out(rest.result.Map(vs => [v] + vs).Plus(k), first.log + rest.log)
  }

  /** One map entry: its key as text, and its value. */
  function MapEntry(r: seq<Byte>, at: nat, keyType: string, valueType: string, i: nat, path: string): (o: Out<(string, Value)>)
    ensures o.result.Got? ==> 2 <= o.result.used <= |r|
    decreases |r|, 2
  {
    var key := Element(r, at, keyType, true, Indexed(path, ".key", i));
    match key.result
    case Failed(why) => Out(Failed(why), key.log)
    case Got(k, a) =>
      var value := Element(r[a..], at + a, valueType, false, Indexed(path, ".value", i));
      Out(value.result.Map(v => (KeyText(k), v)).Plus(a), key.log + value.log)
  }

  /** Entries `i..count` of a map; a later entry wins over an earlier one with the same key text. */
  function MapEntries(r: seq<Byte>, at: nat, keyType: string, valueType: string, i: nat, count: nat, path: string)
      : (o: Out<map<string, Value>>)
    requires i <= count
    ensures o.result.Got? ==> o.result.used <= |r|
    decreases |r|, 3
  {
    if i == count then Out(Got(map[], 0), [])
    else
      var first := MapEntry(r, at, keyType, valueType, i, path);
      match first.result
      case Failed(why) => Out(Failed(why), first.log)
      case Got((key, v), k) =>
        var rest := MapEntries(r[k..], at + k, keyType, valueType, i + 1, count, path);
        Out(Merged(map[key := v], k, rest.result), first.log + rest.log)
  }

  /** A walk that has already passed `n` bytes with these items and notes. */
  function Ahead(items: seq<Item>, n: nat, log: seq<string>, w: Walked): Walked {
    Walked(items + w.items, w.finish.Plus(n), log + w.log)
  }

  lemma AheadTwice(a: seq<Item>, m: nat, x: seq<string>, b: seq<Item>, n: nat, y: seq<string>, w: Walked)
    ensures Ahead(a, m, x, Ahead(b, n, y, w)) == Ahead(a + b, m + n, x + y, w)
  {
    assert a + (b + w.items) == (a + b) + w.items;
    assert x + (y + w.log) == (x + y) + w.log;
  }

  lemma AheadStopped(a: seq<Item>, m: nat, x: seq<string>, finish: Read<()>, y: seq<string>)
    ensures Ahead(a, m, x, Walked([], finish, y)) == Walked(a, finish.Plus(m), x + y)
  {
    assert a + [] == a;
  }

  function ItemOf(name: string, extent: Option<(nat, nat)>, outcome: Outcome): Item {
    Item(name, extent, if outcome.Kept? then Some(outcome.value) else None)
  }

  lemma AheadNone(w: Walked)
    ensures Ahead([], 0, [], w) == w
  {
    assert [] + w.items == w.items && [] + w.log == w.log;
  }

  lemma FieldsOneMore(items: seq<Item>, item: Item)
    ensures Fields(items + [item]) == if item.value.Some? then Fields(items)[item.name := item.value.value] else Fields(items)
    ensures Fields([]) == map[]
  {
    assert (items + [item])[..|items|] == items;
  }

  /** `Walk`, one property at a time. */
  lemma WalkStops(r: seq<Byte>, at: nat, path: string)
    requires ReadHead(r, at).Got? ==> ReadHead(r, at).value.End?
    ensures Walk(r, at, path) == Walked([], ReadHead(r, at).Map(_ => ()), [])
  {
    hide Property, ReadHead, Extent;
  }

  lemma WalkContinues(r: seq<Byte>, at: nat, path: string)
    requires ReadHead(r, at).Got? && ReadHead(r, at).value.Head?
    ensures var Got(Head(name, typeName, size), h) := ReadHead(r, at);
            var (o, log) := Property(r[h..], at + h, typeName, size, Join(path, name));
            Walk(r, at, path) ==
            if o.Broken? then Walked([], Failed(o.why), log)
            else Ahead([ItemOf(name, Extent(typeName, size, r[h..], at + h), o)], h + o.used, log,
                       Walk(r[h + o.used..], at + h + o.used, path))
  {
    hide Property, ReadHead, Extent;
  }

  /** The rest of a row of elements, after `done` ones that took `n` bytes. */
  function Resumed(done: seq<Value>, n: nat, rest: Read<seq<Value>>): Read<seq<Value>> {
    if rest.Got? then Got(done + rest.value, n + rest.used) else rest
  }

  lemma ResumedTwice(a: seq<Value>, b: seq<Value>, rest: Read<seq<Value>>)
    ensures rest.Got? ==> a + (b + rest.value) == (a + b) + rest.value
    ensures Resumed([], 0, rest) == rest
    ensures a + [] == a
  {
    if rest.Got? {
      assert a + (b + rest.value) == (a + b) + rest.value;
      assert [] + rest.value == rest.value;
    }
  }

  function Merged(done: map<string, Value>, n: nat, rest: Read<map<string, Value>>): Read<map<string, Value>> {
    if rest.Got? then Got(done + rest.value, n + rest.used) else rest
  }

  lemma MergedTwice(done: map<string, Value>, key: string, value: Value, rest: Read<map<string, Value>>)
    ensures rest.Got? ==> done + (map[key := value] + rest.value) == done[key := value] + rest.value
  {
  }

  lemma FlatItemsStep(r: seq<Byte>, at: nat, elementType: string, count: nat)
    ensures count == 0 ==> FlatItems(r, at, elementType, count) == Got([], 0)
    ensures count > 0 ==>
              FlatItems(r, at, elementType, count) ==
              match FlatElement(elementType, r, at)
              case Failed(why) => Failed(why)
              case Got(v, k) => Resumed([v], k, FlatItems(r[k..], at + k, elementType, count - 1))
  {
    hide FlatElement;
  }

  lemma RawFieldsNone(width: nat, r: seq<Byte>, at: nat)
    ensures RawFields([], width, r, at) == Got(map[], 0)
  {
  }

  lemma RawFieldsStep(names: seq<string>, width: nat, r: seq<Byte>, at: nat, i: nat)
    requires i < |names|
    ensures RawFields(names[..0], width, r, at) == Got(map[], 0)
    ensures RawFields(names[..i + 1], width, r, at) ==
            match RawFields(names[..i], width, r, at)
            case Failed(why) => Failed(why)
            case Got(fields, used) =>
              match Take(r[used..], at + used, width)
              case Failed(why) => Failed(why)
              case Got(b, n) => Got(fields[names[i] := Raw(b)], used + n)
  {
    hide Take;
    assert names[..i + 1][..i] == names[..i];
  }

  lemma StructItemsStep(r: seq<Byte>, at: nat, structType: string, i: nat, count: nat, path: string)
    requires i <= count
    ensures i == count ==> StructItems(r, at, structType, i, count, path) == Out(Got([], 0), [])
    ensures i < count ==>
              var first := StructValue(r, at, structType, Indexed(path, "", i));
              StructItems(r, at, structType, i, count, path) ==
              match first.result
              case Failed(why) => Out(Failed(why), first.log)
              case Got(v, k) =>
                var rest := StructItems(r[k..], at + k, structType, i + 1, count, path);
                Out(Resumed([v], k, rest.result), first.log + rest.log)
  {
    hide StructValue;
  }

  lemma SetItemsStep(r: seq<Byte>, at: nat, elementType: string, i: nat, count: nat, path: string)
    requires i <= count
    ensures i == count ==> SetItems(r, at, elementType, i, count, path) == Out(Got([], 0), [])
    ensures i < count ==>
              var first := Element(r, at, elementType, false, Indexed(path, "", i));
              SetItems(r, at, elementType, i, count, path) ==
              match first.result
              case Failed(why) => Out(Failed(why), first.log)
              case Got(v, k) =>
                var rest := SetItems(r[k..], at + k, elementType, i + 1, count, path);
                Out(Resumed([v], k, rest.result), first.log + rest.log)
  {
    hide Element;
  }

  lemma MapEntriesStep(r: seq<Byte>, at: nat, keyType: string, valueType: string, i: nat, count: nat, path: string)
    requires i <= count
    ensures i == count ==> MapEntries(r, at, keyType, valueType, i, count, path) == Out(Got(map[], 0), [])
    ensures i < count ==>
              var first := MapEntry(r, at, keyType, valueType, i, path);
              MapEntries(r, at, keyType, valueType, i, count, path) ==
              match first.result
              case Failed(why) => Out(Failed(why), first.log)
              case Got((key, v), k) =>
                var rest := MapEntries(r[k..], at + k, keyType, valueType, i + 1, count, path);
                Out(Merged(map[key := v], k, rest.result), first.log + rest.log)
  {
    hide MapEntry;
  }

  // ---------------------------------------------------------------------------------------------
  // The whole file
  // ---------------------------------------------------------------------------------------------

  /** The file header up to the first property; the value is of no interest. */
  function FileHeader(r: seq<Byte>): (o: Read<()>)
    ensures o.Got? ==> o.used <= |r|
  {
    var (magic, _) :- TakeSigned(r, 0, 4);
    if magic != 0x53415647 then Failed("no GVAS magic") else
    var (version, _) :- TakeSigned(r[4..], 4, 4);
    if version != 3 then Failed("unexpected save game version " + Decimal(version)) else
    var (_, _) :- Take(r[8..], 8, 8);
    var (_, _) :- Take(r[16..], 16, 10);
    HeaderRest(r[26..], 26).Plus(26)
  }

  /** Branch, custom versions, save class. */
  function HeaderRest(r: seq<Byte>, at: nat): (o: Read<()>)
    ensures o.Got? ==> o.used <= |r|
  {
    var (_, a) :- FString(r, at);
    var (custom, _) :- TakeSigned(r[a..], at + a, 4);
    if custom != 3 then Failed("unexpected custom version format") else
    var (count, _) :- TakeUnsigned(r[a + 4..], at + a + 4, 4);
    if count > 10000 then Failed("implausible custom version count " + Decimal(count)) else
    var (_, c) :- Take(r[a + 8..], at + a + 8, 20 * count);
    var (_, b) :- FString(r[a + 8 + c..], at + a + 8 + c);
    Got((), a + 8 + c + b)
  }

  /** One more note, under the cap: the last place is taken by a marker. */
  function Record(errors: seq<string>, note: string): seq<string> {
    if |errors| < MAX_ERRORS then errors + [if |note| <= MAX_ERROR_LEN then note else note[..MAX_ERROR_LEN]]
    else if |errors| == MAX_ERRORS then errors + ["... further errors suppressed"]
    else errors
  }

  function RecordAll(errors: seq<string>, log: seq<string>): seq<string>
    decreases log
  {
    if log == [] then errors else RecordAll(Record(errors, log[0]), log[1..])
  }

  lemma RecordNothing(errors: seq<string>)
    ensures RecordAll(errors, []) == errors
  {
  }

  lemma RecordOne(errors: seq<string>, note: string)
    ensures RecordAll(errors, [note]) == Record(errors, note)
  {
    assert [note][1..] == [];
  }

  lemma {:induction false} RecordAllConcat(errors: seq<string>, a: seq<string>, b: seq<string>)
    ensures RecordAll(errors, a + b) == RecordAll(RecordAll(errors, a), b)
    decreases a
  {
    if a == [] {
      assert a + b == b;
    } else {
      assert (a + b)[1..] == a[1..] + b;
      RecordAllConcat(Record(errors, a[0]), a[1..], b);
    }
  }

  /** `Err` is the SavCorrupt exception, the only one that leaves the parser. */
  function ParseGvas(data: seq<Byte>): Result<(map<string, Value>, seq<string>), string> {
    match FileHeader(data)
    case Failed(why) => Err("GVAS header: " + why)
    case Got(_, h) =>
      var w := Walk(data[h..], h, "");
      match w.finish
      case Got(_, _) => Ok((Fields(w.items), RecordAll([], w.log)))
      case Failed(why) => Ok((map[], Record(RecordAll([], w.log), Note("(root)", why))))
  }
}
