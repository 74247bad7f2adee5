/** The encoder of tests/lib/gvas_fixture.py, over trees of properties. */
module GvasEncoding {
  import opened Bytes
  import opened GvasFormat

  // ---------------------------------------------------------------------------------------------
  // Strings
  // ---------------------------------------------------------------------------------------------

  /** How many units the string has on disk, terminator excluded. */
  function Units(s: string): nat {
    if IsAscii(s) then |s| else |EncodeUtf16(s)| / 2
  }

  /** The length field is a signed 32-bit integer; a longer string cannot be packed at all. */
  predicate Packs(s: string) {
    Units(s) + 1 < 0x8000_0000
  }

  /** The reader takes a string only below its own limit. */
  predicate Fits(s: string) {
    s == "" || Units(s) + 1 <= MAX_FSTRING
  }

  function EncFString(s: string): (bytes: seq<Byte>)
    requires Packs(s)
    ensures |bytes| >= 4
  {
    Powers();
    if s == "" then PackSigned(0, 4)
    else if IsAscii(s) then PackSigned(|s| + 1, 4) + EncodeAscii(s) + [0]
    else PackSigned(-(Units(s) + 1), 4) + EncodeUtf16(s) + [0, 0]
  }

  // ---------------------------------------------------------------------------------------------
  // Properties
  // ---------------------------------------------------------------------------------------------

  /** A map element; its wire form depends on the declared element type. */
  datatype Scalar = S(s: string) | I(n: int) | B(b: bool)

  /** `UnknownProp` stands for any type the reader does not know, under the flag-byte convention. */
  datatype Prop =
    | IntProp(name: string, n: int)
    | Int64Prop(name: string, n: int)
    | BoolProp(name: string, b: bool)
    | FloatProp(name: string, raw: seq<Byte>)
    | StrProp(name: string, s: string, nameType: bool)
    | EnumProp(name: string, enumType: string, s: string)
    | StructProp(name: string, structType: string, fields: seq<Prop>)
    | MapProp(name: string, keyType: string, valueType: string, entries: seq<(Scalar, Scalar)>)
    | UnknownProp(name: string, unknownType: string, payload: seq<Byte>)

  function TypeOf(p: Prop): string {
    match p
    case IntProp(_, _) => "IntProperty"
    case Int64Prop(_, _) => "Int64Property"
    case BoolProp(_, _) => "BoolProperty"
    case FloatProp(_, _) => "FloatProperty"
    case StrProp(_, _, nameType) => if nameType then "NameProperty" else "StrProperty"
    case EnumProp(_, _, _) => "EnumProperty"
    case StructProp(_, _, _) => "StructProperty"
    case MapProp(_, _, _, _) => "MapProperty"
    case UnknownProp(_, unknownType, _) => unknownType
  }

  predicate Int32(n: int) { -0x8000_0000 <= n < 0x8000_0000 }
  predicate Int64(n: int) { -0x8000_0000_0000_0000 <= n < 0x8000_0000_0000_0000 }

  predicate ScalarOk(typeName: string, x: Scalar) {
    match x
    case S(s) => (typeName == "NameProperty" || typeName == "EnumProperty" || typeName == "StrProperty") && Packs(s) && Fits(s)
    case I(n) => typeName == "IntProperty" && Int32(n)
    case B(_) => typeName == "BoolProperty"
  }

  function EncScalar(typeName: string, x: Scalar): (bytes: seq<Byte>)
    requires ScalarOk(typeName, x)
    ensures |bytes| >= 1
  {
    Powers();
    match x
    case S(s) => EncFString(s)
    case I(n) => PackSigned(n, 4)
    case B(b) => [if b then 1 else 0]
  }

  predicate EntriesOk(keyType: string, valueType: string, entries: seq<(Scalar, Scalar)>) {
    forall i | 0 <= i < |entries| :: ScalarOk(keyType, entries[i].0) && ScalarOk(valueType, entries[i].1)
  }

  function EncEntries(keyType: string, valueType: string, entries: seq<(Scalar, Scalar)>): seq<Byte>
    requires EntriesOk(keyType, valueType, entries)
  {
    if entries == [] then []
    else EncScalar(keyType, entries[0].0) + EncScalar(valueType, entries[0].1) + EncEntries(keyType, valueType, entries[1..])
  }

  function MapBody(keyType: string, valueType: string, entries: seq<(Scalar, Scalar)>): seq<Byte>
    requires EntriesOk(keyType, valueType, entries)
  {
    PackUnsigned(0, 4) + PackUnsigned(|entries|, 4) + EncEntries(keyType, valueType, entries)
  }

  predicate NameOk(name: string) {
    name != "" && name != "None" && Packs(name) && Fits(name)
  }

  predicate TypeOk(s: string) {
    Packs(s) && Fits(s)
  }

  /**
   What the wire format and the reader's limits ask of a property. A struct type must not be one of
   the five the reader takes for a fixed layout.
   */
  predicate PropOk(p: Prop) {
    && NameOk(p.name) && TypeOk(TypeOf(p))
    && match p
       case IntProp(_, n) => Int32(n)
       case Int64Prop(_, n) => Int64(n)
       case BoolProp(_, _) => true
       case FloatProp(_, raw) => |raw| == 4
       case StrProp(_, s, _) => TypeOk(s)
       case EnumProp(_, enumType, s) => TypeOk(enumType) && TypeOk(s)
       case StructProp(_, structType, fields) => TypeOk(structType) && !IsFixedStruct(structType) && ListOk(fields)
       case MapProp(_, keyType, valueType, entries) =>
         TypeOk(keyType) && TypeOk(valueType) && EntriesOk(keyType, valueType, entries) && |entries| < 0x1_0000_0000
       case UnknownProp(_, unknownType, payload) => !IsScalar(unknownType) && !IsContainer(unknownType)
  }

  /** After a property of unknown type the reader must be able to recognise the list again. */
  predicate Recognisable(next: seq<Prop>) {
    next == [] || (PlausibleName(next[0].name) && PlausibleType(TypeOf(next[0])))
  }

  predicate ListOk(ps: seq<Prop>) {
    ps == [] || (PropOk(ps[0]) && (ps[0].UnknownProp? ==> Recognisable(ps[1..])) && ListOk(ps[1..]))
  }

  /** The bytes that the size field counts, for the types that have them apart from a header. */
  function ValueBytes(p: Prop): seq<Byte>
    requires PropOk(p)
    decreases p, 0
  {
    Powers();
    match p
    case IntProp(_, n) => PackSigned(n, 4)
    case Int64Prop(_, n) => PackSigned(n, 8)
    case BoolProp(_, b) => []
    case FloatProp(_, raw) => raw
    case StrProp(_, s, _) => EncFString(s)
    case EnumProp(_, _, s) => EncFString(s)
    case StructProp(_, _, fields) => EncList(fields) + EncFString("None")
    case MapProp(_, keyType, valueType, entries) => MapBody(keyType, valueType, entries)
    case UnknownProp(_, _, payload) => payload
  }

  /** Everything after the size field. */
  function Payload(p: Prop): seq<Byte>
    requires PropOk(p)
    decreases p, 1
  {
    match p
    case BoolProp(_, b) => [if b then 1 else 0, 0]
    case EnumProp(_, enumType, _) => EncFString(enumType) + [0] + ValueBytes(p)
    case StructProp(_, structType, _) => EncFString(structType) + seq(16, _ => 0) + [0] + ValueBytes(p)
    case MapProp(_, keyType, valueType, _) => EncFString(keyType) + EncFString(valueType) + [0] + ValueBytes(p)
    case _ => [0] + ValueBytes(p)
  }

  /** The size field is an unsigned 64-bit integer; a larger value cannot be packed. */
  predicate Sized(p: Prop)
    requires PropOk(p)
    decreases p
  {
    |ValueBytes(p)| < 0x1_0000_0000_0000_0000 && (p.StructProp? ==> ListSized(p.fields))
  }

  predicate ListSized(ps: seq<Prop>)
    requires ListOk(ps)
    decreases ps
  {
    ps == [] || (Sized(ps[0]) && ListSized(ps[1..]))
  }

  function EncHead(p: Prop): seq<Byte>
    requires PropOk(p)
    decreases p, 1
  {
    EncFString(p.name) + EncFString(TypeOf(p)) + PackUnsigned(|ValueBytes(p)|, 8)
  }

  function EncList(ps: seq<Prop>): seq<Byte>
    requires ListOk(ps)
    decreases ps
  {
    if ps == [] then []
    else EncHead(ps[0]) + (Payload(ps[0]) + EncList(ps[1..]))
  }

  function Engine(): seq<Byte> {
    PackUnsigned(5, 2) + PackUnsigned(1, 2) + PackUnsigned(1, 2) + PackUnsigned(0, 4)
  }

  /** Magic, save version, package versions, engine. */
  function FixedHeader(): seq<Byte> {
    Powers();
    PackSigned(0x53415647, 4) + (PackSigned(3, 4) + ((PackSigned(522, 4) + PackSigned(1008, 4)) + Engine()))
  }

  /** Branch, custom versions (none), save class. */
  function EncHeaderRest(saveClass: string): seq<Byte>
    requires Packs(saveClass)
  {
    Powers();
    EncFString("main") + (PackSigned(3, 4) + (PackUnsigned(0, 4) + EncFString(saveClass)))
  }

  function EncFileHeader(saveClass: string): seq<Byte>
    requires Packs(saveClass)
  {
    FixedHeader() + EncHeaderRest(saveClass)
  }

  function BuildGvas(saveClass: string, ps: seq<Prop>): seq<Byte>
    requires Packs(saveClass) && ListOk(ps)
  {
    EncFileHeader(saveClass) + (EncList(ps) + (EncFString("None") + [0, 0, 0, 0]))
  }

  // ---------------------------------------------------------------------------------------------
  // The tree a reader should return, and what it should note
  // ---------------------------------------------------------------------------------------------

  function ScalarValue(x: Scalar): Value {
    match x
    case S(s) => Text(s)
    case I(n) => Num(n)
    case B(b) => Flag(b)
  }

  function EntriesTree(entries: seq<(Scalar, Scalar)>): map<string, Value> {
    if entries == [] then map[]
    else map[KeyText(ScalarValue(entries[0].0)) := ScalarValue(entries[0].1)] + EntriesTree(entries[1..])
  }

  function TreeValue(p: Prop): Value
    requires !p.UnknownProp?
    decreases p
  {
    match p
    case IntProp(_, n) => Num(n)
    case Int64Prop(_, n) => Num(n)
    case BoolProp(_, b) => Flag(b)
    case FloatProp(_, raw) => Raw(raw)
    case StrProp(_, s, _) => Text(s)
    case EnumProp(_, _, s) => Text(s)
    case StructProp(_, _, fields) => Dict(Tree(fields))
    case MapProp(_, _, _, entries) => Dict(EntriesTree(entries))
  }

  /** Names to values; of two properties of one name the later counts, and unknown ones are not there. */
  function Tree(ps: seq<Prop>): map<string, Value>
    decreases ps
  {
    if ps == [] then map[]
    else if ps[0].UnknownProp? then Tree(ps[1..])
    else map[ps[0].name := TreeValue(ps[0])] + Tree(ps[1..])
  }

  /** One note for each property of unknown type, at its path, in reading order. */
  function Notes(ps: seq<Prop>, path: string): seq<string>
    decreases ps
  {
    if ps == [] then []
    else
      var here := Join(path, ps[0].name);
      (match ps[0]
       case UnknownProp(_, unknownType, _) => [Note(here, "skipped unknown property type " + unknownType)]
       case StructProp(_, _, fields) => Notes(fields, here)
       case _ => [])
      + Notes(ps[1..], path)
  }
}
