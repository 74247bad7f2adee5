/** Parsing what the encoder writes gives back the tree, with one note for each property of unknown type. */
module GvasRoundTrip {
  import opened Wrappers
  import opened Bytes
  import opened Text
  import opened GvasFormat
  import opened GvasEncoding

  // ---------------------------------------------------------------------------------------------
  // Primitives
  // ---------------------------------------------------------------------------------------------

  lemma SignedBack(n: int, width: nat, tail: seq<Byte>, at: nat)
    requires -(Pow256(width) as int) <= 2 * n < Pow256(width)
    ensures TakeSigned(PackSigned(n, width) + tail, at, width) == Got(n, width)
    ensures (PackSigned(n, width) + tail)[width..] == tail
  {
    SignedRoundTrip(n, width);
    Cut(PackSigned(n, width), tail);
  }

  lemma UnsignedBack(n: nat, width: nat, tail: seq<Byte>, at: nat)
    requires n < Pow256(width)
    ensures TakeUnsigned(PackUnsigned(n, width) + tail, at, width) == Got(n, width)
    ensures (PackUnsigned(n, width) + tail)[width..] == tail
  {
    UnsignedRoundTrip(n, width);
    Cut(PackUnsigned(n, width), tail);
  }

  lemma TakeBack(bytes: seq<Byte>, tail: seq<Byte>, at: nat)
    ensures Take(bytes + tail, at, |bytes|) == Got(bytes, |bytes|)
    ensures (bytes + tail)[|bytes|..] == tail
  {
    Cut(bytes, tail);
  }

  /** What the reader makes of a length field, that many bytes, and more. */
  lemma LengthBack(n: int, bytes: seq<Byte>, tail: seq<Byte>, at: nat)
    requires -0x8000_0000 <= n < 0x8000_0000 && n != 0 && |bytes| == if n > 0 then n else 2 * -n
    ensures n <= MAX_FSTRING && -n <= MAX_FSTRING ==>
              FString(PackSigned(n, 4) + (bytes + tail), at) ==
              if n > 0 then Got(DecodeAscii(bytes[..n - 1]), 4 + n) else Got(DecodeUtf16(bytes[..|bytes| - 2]), 4 + |bytes|)
    ensures FString(PackSigned(n, 4) + (bytes + tail), at).Failed? <==> n > MAX_FSTRING || -n > MAX_FSTRING
  {
    hide DecodeUtf16, DecodeAscii, PackSigned, Signed;
    Powers();
    SignedBack(n, 4, bytes + tail, at);
    TakeBack(bytes, tail, at + 4);
  }

  /** A string that can be packed is read back exactly if it is within the reader's limit. */
  lemma FStringRoundTrip(s: string, tail: seq<Byte>, at: nat)
    requires Packs(s)
    ensures FString(EncFString(s) + tail, at) == Got(s, |EncFString(s)|) <==> Fits(s)
  {
    hide DecodeUtf16, DecodeAscii, EncodeUtf16, EncodeAscii, PackSigned, FString;
    Powers();
    AsciiOrUtf16Back(s);
    if s == "" {
      EmptyBack(tail, at);
    } else if IsAscii(s) {
      var text := EncodeAscii(s);
      assert EncFString(s) + tail == PackSigned(|s| + 1, 4) + ((text + [0]) + tail);
      Cut(text, [0]);
      LengthBack(|s| + 1, text + [0], tail, at);
    } else {
      var text := EncodeUtf16(s);
      assert EncFString(s) + tail == PackSigned(-(Units(s) + 1), 4) + ((text + [0, 0]) + tail);
      Cut(text, [0, 0]);
      LengthBack(-(Units(s) + 1), text + [0, 0], tail, at);
    }
  }

  lemma EmptyBack(tail: seq<Byte>, at: nat)
    ensures FString(PackSigned(0, 4) + tail, at) == Got("", 4)
  {
    Powers();
    SignedBack(0, 4, tail, at);
  }

  lemma AsciiOrUtf16Back(s: string)
    ensures IsAscii(s) ==> DecodeAscii(EncodeAscii(s)) == s
    ensures DecodeUtf16(EncodeUtf16(s)) == s
  {
    if IsAscii(s) {
      AsciiRoundTrip(s);
    }
    Utf16RoundTrip(s);
  }

  lemma FStringBack(s: string, tail: seq<Byte>, at: nat)
    requires Packs(s) && Fits(s)
    ensures FString(EncFString(s) + tail, at) == Got(s, |EncFString(s)|)
    ensures (EncFString(s) + tail)[|EncFString(s)|..] == tail
  {
    FStringRoundTrip(s, tail, at);
    Cut(EncFString(s), tail);
  }

  lemma NoGuid(tail: seq<Byte>, at: nat)
    ensures OptionalGuid([0] + tail, at) == Got((), 1)
    ensures ([0] + tail)[1..] == tail
  {
    assert ([0] + tail)[..1] == [0];
    assert Unsigned([0]) == 0;
  }

  lemma HeadBack(p: Prop, tail: seq<Byte>, at: nat)
    requires PropOk(p) && |ValueBytes(p)| < 0x1_0000_0000_0000_0000
    ensures ReadHead(EncHead(p) + tail, at) == Got(Head(p.name, TypeOf(p), |ValueBytes(p)|), |EncHead(p)|)
    ensures (EncHead(p) + tail)[|EncHead(p)|..] == tail
  {
    hide FString, EncFString, ValueBytes, TakeUnsigned, PackUnsigned, TypeOf, Packs, Fits;
    Powers();
    var name, typeName, size := EncFString(p.name), EncFString(TypeOf(p)), PackUnsigned(|ValueBytes(p)|, 8);
    assert EncHead(p) + tail == name + (typeName + (size + tail));
    FStringBack(p.name, typeName + (size + tail), at);
    FStringBack(TypeOf(p), size + tail, at + |name|);
    UnsignedBack(|ValueBytes(p)|, 8, tail, at + |name| + |typeName|);
    assert (EncHead(p) + tail)[|name| + |typeName|..] == size + tail;
    Cut(EncHead(p), tail);
  }

  lemma EndBack(tail: seq<Byte>, at: nat)
    ensures ReadHead(EncFString("None") + tail, at) == Got(End, |EncFString("None")|)
    ensures Plausible(EncFString("None") + tail, at)
  {
    hide FString, EncFString;
    FStringBack("None", tail, at);
  }

  // ---------------------------------------------------------------------------------------------
  // Maps
  // ---------------------------------------------------------------------------------------------

  lemma ScalarBack(typeName: string, x: Scalar, guid: bool, tail: seq<Byte>, at: nat, path: string)
    requires ScalarOk(typeName, x)
    ensures Element(EncScalar(typeName, x) + tail, at, typeName, guid, path) == Out(Got(ScalarValue(x), |EncScalar(typeName, x)|), [])
    ensures (EncScalar(typeName, x) + tail)[|EncScalar(typeName, x)|..] == tail
  {
    hide FString, EncFString;
    Powers();
    Cut(EncScalar(typeName, x), tail);
    match x
    case S(s) => FStringBack(s, tail, at);
    case I(n) => SignedBack(n, 4, tail, at);
    case B(b) =>
      assert Unsigned([if b then 1 else 0]) == if b then 1 else 0 by {
        assert [if b then 1 else 0][1..] == [];
      }
  }

  lemma EntryBack(keyType: string, valueType: string, key: Scalar, value: Scalar, i: nat, tail: seq<Byte>, at: nat, path: string)
    requires ScalarOk(keyType, key) && ScalarOk(valueType, value)
    ensures var bytes := EncScalar(keyType, key) + EncScalar(valueType, value);
            && MapEntry(bytes + tail, at, keyType, valueType, i, path)
               == Out(Got((KeyText(ScalarValue(key)), ScalarValue(value)), |bytes|), [])
            && (bytes + tail)[|bytes|..] == tail
  {
    hide Element, EncScalar, KeyText;
    var k, v := EncScalar(keyType, key), EncScalar(valueType, value);
    assert (k + v) + tail == k + (v + tail);
    ScalarBack(keyType, key, true, v + tail, at, Indexed(path, ".key", i));
    ScalarBack(valueType, value, false, tail, at + |k|, Indexed(path, ".value", i));
    Cut(k + v, tail);
  }

  lemma {:induction false} EntriesBack(keyType: string, valueType: string, entries: seq<(Scalar, Scalar)>, i: nat, tail: seq<Byte>,
                                       at: nat, path: string)
    requires EntriesOk(keyType, valueType, entries)
    ensures MapEntries(EncEntries(keyType, valueType, entries) + tail, at, keyType, valueType, i, i + |entries|, path)
            == Out(Got(EntriesTree(entries), |EncEntries(keyType, valueType, entries)|), [])
    decreases |entries|
  {
    hide MapEntries, MapEntry, EncScalar, KeyText;
    var r := EncEntries(keyType, valueType, entries) + tail;
    MapEntriesStep(r, at, keyType, valueType, i, i + |entries|, path);
    if entries != [] {
      var first := EncScalar(keyType, entries[0].0) + EncScalar(valueType, entries[0].1);
      var rest := EncEntries(keyType, valueType, entries[1..]);
      assert r == first + (rest + tail);
      EntryBack(keyType, valueType, entries[0].0, entries[0].1, i, rest + tail, at, path);
      EntriesBack(keyType, valueType, entries[1..], i + 1, tail, at + |first|, path);
    }
  }

  lemma MapBack(keyType: string, valueType: string, entries: seq<(Scalar, Scalar)>, tail: seq<Byte>, at: nat, size: nat, path: string)
    requires EntriesOk(keyType, valueType, entries) && |entries| < 0x1_0000_0000
    ensures ContainerValue(MapBody(keyType, valueType, entries) + tail, at, MapOf(keyType, valueType), size, path)
            == Out(Got(Dict(EntriesTree(entries)), |MapBody(keyType, valueType, entries)|), [])
  {
    hide MapEntries, EncEntries;
    Powers();
    var body := EncEntries(keyType, valueType, entries);
    var r := MapBody(keyType, valueType, entries) + tail;
    assert r == PackUnsigned(0, 4) + (PackUnsigned(|entries|, 4) + (body + tail));
    TakeBack(PackUnsigned(0, 4), PackUnsigned(|entries|, 4) + (body + tail), at);
    UnsignedBack(|entries|, 4, body + tail, at + 4);
    assert r[8..] == body + tail;
    EntriesBack(keyType, valueType, entries, 0, tail, at + 8, path);
  }

  // ---------------------------------------------------------------------------------------------
  // Properties and lists
  // ---------------------------------------------------------------------------------------------

  lemma TypeNames()
    ensures !IsScalar("StructProperty") && !IsScalar("MapProperty")
    ensures IsContainer("StructProperty") && IsContainer("MapProperty") && "StructProperty" != "MapProperty"
  {
    assert "StructProperty"[0] == 'S' && "MapProperty"[0] == 'M';
    forall t | IsScalar(t) ensures t != "StructProperty" && t != "MapProperty" {
      assert |t| > 3;
      assert t[0] != 'M' && (t[0] == 'S' ==> t[3] == 'P');
    }
  }

  lemma PlainBack(p: Prop, tail: seq<Byte>, at: nat, path: string)
    requires PropOk(p) && (p.IntProp? || p.Int64Prop? || p.FloatProp? || p.StrProp?)
    ensures Property(Payload(p) + tail, at, TypeOf(p), |ValueBytes(p)|, path) == (Kept(TreeValue(p), |Payload(p)|), [])
  {
    hide ValueBytes, AfterGuid, Property, TreeValue, NameOk, TypeOk;
    PlainValue(p, tail, at + 1);
    PlainProperty(TypeOf(p), ValueBytes(p) + tail, at, |ValueBytes(p)|, path);
    assert Payload(p) + tail == [0] + (ValueBytes(p) + tail);
  }

  lemma PlainValue(p: Prop, tail: seq<Byte>, at: nat)
    requires PropOk(p) && (p.IntProp? || p.Int64Prop? || p.FloatProp? || p.StrProp?)
    ensures AfterGuid(TypeOf(p), ValueBytes(p) + tail, at) == Got(TreeValue(p), |ValueBytes(p)|)
  {
    hide FString, EncFString, TakeSigned, PackSigned, Take, Packs, Fits;
    Powers();
    match p
    case IntProp(_, n) => SignedBack(n, 4, tail, at);
    case Int64Prop(_, n) => SignedBack(n, 8, tail, at);
    case FloatProp(_, raw) => TakeBack(raw, tail, at);
    case StrProp(_, s, _) => FStringBack(s, tail, at);
  }

  /** The types whose value follows the flag at once. */
  predicate Plain(typeName: string) {
    typeName == "IntProperty" || typeName == "Int64Property" || typeName == "FloatProperty" || typeName == "StrProperty"
    || typeName == "NameProperty"
  }

  lemma PlainIsScalar(typeName: string)
    requires Plain(typeName)
    ensures IsScalar(typeName) && typeName != "BoolProperty" && typeName != "EnumProperty" && typeName != "ByteProperty"
  {
  }

  lemma PlainProperty(typeName: string, r: seq<Byte>, at: nat, size: nat, path: string)
    requires Plain(typeName)
    ensures Property([0] + r, at, typeName, size, path) ==
            match AfterGuid(typeName, r, at + 1)
            case Got(v, used) => (Kept(v, 1 + used), [])
            case Failed(why) => (Broken(why), [])
  {
    hide AfterGuid, OptionalGuid, IsScalar, Plain;
    PlainIsScalar(typeName);
    NoGuid(r, at);
  }

  lemma BoolBack(p: Prop, tail: seq<Byte>, at: nat, path: string)
    requires PropOk(p) && p.BoolProp?
    ensures Property(Payload(p) + tail, at, TypeOf(p), |ValueBytes(p)|, path) == (Kept(TreeValue(p), |Payload(p)|), [])
  {
    hide Property, NameOk, TypeOk;
    BoolRead(if p.b then 1 else 0, tail, at, |ValueBytes(p)|, path);
    assert Payload(p) + tail == [if p.b then 1 else 0] + ([0] + tail);
  }

  lemma BoolRead(flag: Byte, tail: seq<Byte>, at: nat, size: nat, path: string)
    ensures Property([flag] + ([0] + tail), at, "BoolProperty", size, path) == (Kept(Flag(flag > 0), 2), [])
  {
    hide OptionalGuid, AfterGuid, EnumOrByte, TakeUnsigned;
    TakeFlag(flag, [0] + tail, at);
    NoGuid(tail, at + 1);
    Cut([flag], [0] + tail);
  }

  lemma TakeFlag(flag: Byte, tail: seq<Byte>, at: nat)
    ensures TakeUnsigned([flag] + tail, at, 1) == Got(flag, 1)
  {
    assert ([flag] + tail)[..1] == [flag];
    assert [flag][1..] == [];
  }

  lemma EnumBack(p: Prop, tail: seq<Byte>, at: nat, path: string)
    requires PropOk(p) && p.EnumProp?
    ensures Property(Payload(p) + tail, at, TypeOf(p), |ValueBytes(p)|, path) == (Kept(TreeValue(p), |Payload(p)|), [])
  {
    hide FString, EncFString, Property, NameOk, Packs, Fits;
    EnumRead(p.enumType, p.s, tail, at, |ValueBytes(p)|, path);
    assert Payload(p) + tail == EncFString(p.enumType) + ([0] + (EncFString(p.s) + tail));
  }

  lemma EnumRead(enumType: string, text: string, tail: seq<Byte>, at: nat, size: nat, path: string)
    requires TypeOk(enumType) && TypeOk(text)
    ensures Property(EncFString(enumType) + ([0] + (EncFString(text) + tail)), at, "EnumProperty", size, path)
            == (Kept(Text(text), |EncFString(enumType)| + 1 + |EncFString(text)|), [])
  {
    hide FString, EncFString, OptionalGuid, Packs, Fits, BoolScalar, AfterGuid;
    var e, t := EncFString(enumType), EncFString(text);
    FStringBack(enumType, [0] + (t + tail), at);
    NoGuid(t + tail, at + |e|);
    Behind(e + ([0] + (t + tail)), [0], t + tail, |e|, 1);
    FStringBack(text, tail, at + |e| + 1);
  }

  function ContainerOf(p: Prop): Container
    requires p.StructProp? || p.MapProp?
  {
    if p.StructProp? then StructOf(p.structType) else MapOf(p.keyType, p.valueType)
  }

  /** The container header of a struct or a map is read back, and what is left begins with the value. */
  lemma ContainerHeadBack(p: Prop, tail: seq<Byte>, at: nat)
    requires PropOk(p) && (p.StructProp? || p.MapProp?)
    ensures var k := |Payload(p)| - |ValueBytes(p)|;
            && k >= 0 && ReadContainer(TypeOf(p), Payload(p) + tail, at) == Got(ContainerOf(p), k)
            && (Payload(p) + tail)[k..] == ValueBytes(p) + tail
  {
    hide FString, EncFString, ValueBytes, ReadContainer, ContainerRest, IsFixedStruct, NameOk, Packs, Fits, EntriesOk, ListOk, ContainerOf;
    var value := ValueBytes(p);
    var first := if p.StructProp? then p.structType else p.keyType;
    var second := if p.StructProp? then seq(16, _ => 0) else EncFString(p.valueType);
    assert Payload(p) == EncFString(first) + second + [0] + value;
    ContainerRestBack(p, [0] + (value + tail), at + |EncFString(first)|);
    HeadParts(TypeOf(p), first, second, ContainerOf(p), value, tail, at);
  }

  lemma HeadParts(typeName: string, first: string, second: seq<Byte>, container: Container, value: seq<Byte>, tail: seq<Byte>, at: nat)
    requires TypeOk(first)
    requires ContainerRest(typeName, first, second + ([0] + (value + tail)), at + |EncFString(first)|) == Got(container, |second|)
    ensures var all := EncFString(first) + second + [0] + value;
            && ReadContainer(typeName, all + tail, at) == Got(container, |all| - |value|)
            && (all + tail)[|all| - |value|..] == value + tail
  {
    hide FString, EncFString, OptionalGuid, ReadContainer, ContainerRest, Packs, Fits;
    var f := EncFString(first);
    Reassociate(f, second, value, tail);
    FStringBack(first, second + ([0] + (value + tail)), at);
    NoGuid(value + tail, at + |f| + |second|);
    ReadContainerParts(typeName, f + (second + ([0] + (value + tail))), at);
  }

  lemma Reassociate(a: seq<Byte>, b: seq<Byte>, c: seq<Byte>, d: seq<Byte>)
    ensures a + b + [0] + c + d == a + (b + ([0] + (c + d)))
    ensures (a + b + [0] + c + d)[|a|..] == b + ([0] + (c + d))
    ensures (a + b + [0] + c + d)[|a| + |b|..] == [0] + (c + d)
    ensures (a + b + [0] + c + d)[|a| + |b| + 1..] == c + d
  {
  }

  lemma ReadContainerParts(typeName: string, r: seq<Byte>, at: nat)
    ensures ReadContainer(typeName, r, at) ==
            match FString(r, at)
            case Failed(why) => Failed(why)
            case Got(first, a) =>
              match ContainerRest(typeName, first, r[a..], at + a)
              case Failed(why) => Failed(why)
              case Got(rest, b) => OptionalGuid(r[a + b..], at + a + b).Map(_ => rest).Plus(a + b)
  {
    hide FString, OptionalGuid, ContainerRest;
  }

  lemma ContainerRestBack(p: Prop, tail: seq<Byte>, at: nat)
    requires PropOk(p) && (p.StructProp? || p.MapProp?)
    ensures var second := if p.StructProp? then seq(16, _ => 0) else EncFString(p.valueType);
            ContainerRest(TypeOf(p), if p.StructProp? then p.structType else p.keyType, second + tail, at) == Got(ContainerOf(p), |second|)
  {
    hide FString, EncFString, ValueBytes;
    TypeNames();
    if p.StructProp? {
      TakeBack(seq(16, _ => 0), tail, at);
    } else {
      FStringBack(p.valueType, tail, at);
    }
  }

  lemma ContainerProperty(typeName: string, r: seq<Byte>, at: nat, size: nat, path: string)
    requires !IsScalar(typeName) && IsContainer(typeName) && ReadContainer(typeName, r, at).Got?
    ensures var Got(container, k) := ReadContainer(typeName, r, at);
            var inner := ContainerValue(r[k..], at + k, container, size, path);
            k + size <= |r| && inner.result.Got? && inner.result.used == size ==>
              Property(r, at, typeName, size, path) == (Kept(inner.result.value, k + size), inner.log)
  {
    hide ContainerValue, ReadContainer, IsScalar, IsContainer;
  }

  /** A container whose inner reader takes exactly its value bytes is kept. */
  lemma ContainerBack(p: Prop, tail: seq<Byte>, at: nat, path: string, value: Value, log: seq<string>)
    requires PropOk(p) && (p.StructProp? || p.MapProp?)
    requires var k := |Payload(p)| - |ValueBytes(p)|;
             k >= 0 && ContainerValue(ValueBytes(p) + tail, at + k, ContainerOf(p), |ValueBytes(p)|, path) == Out(Got(value, |ValueBytes(p)|), log)
    ensures Property(Payload(p) + tail, at, TypeOf(p), |ValueBytes(p)|, path) == (Kept(value, |Payload(p)|), log)
  {
    hide ContainerValue, ReadContainer, ValueBytes, Payload, PropOk, ContainerOf, IsScalar, IsContainer, Property;
    TypeNames();
    ContainerHeadBack(p, tail, at);
    ContainerProperty(TypeOf(p), Payload(p) + tail, at, |ValueBytes(p)|, path);
  }

  lemma UnknownBack(p: Prop, tail: seq<Byte>, at: nat, path: string)
    requires PropOk(p) && p.UnknownProp?
    ensures Property(Payload(p) + tail, at, TypeOf(p), |ValueBytes(p)|, path)
            == if Plausible(tail, at + |Payload(p)|)
               then (Skipped(|Payload(p)|), [Note(path, "skipped unknown property type " + p.unknownType)])
               else (Broken("unknown property type " + p.unknownType), [])
  {
    hide Plausible, IsScalar, IsContainer, OptionalGuid, NameOk, TypeOk;
    assert Payload(p) == [0] + p.payload;
    RightNestedOne([0], p.payload, tail);
    NoGuid(p.payload + tail, at);
    Behind(Payload(p) + tail, p.payload, tail, 1, |p.payload|);
  }

  lemma Unfolded(a: seq<Byte>, b: seq<Byte>, c: seq<Byte>, d: seq<Byte>, e: seq<Byte>)
    ensures (a + b + c + d) + e == a + (b + (c + (d + e)))
  {
  }

  /** What follows a property of unknown type looks like a property list to the reader only if it is recognisable. */
  lemma RecognisedBack(ps: seq<Prop>, tail: seq<Byte>, at: nat)
    requires ListOk(ps) && ListSized(ps)
    ensures Plausible(EncList(ps) + (EncFString("None") + tail), at) <==> Recognisable(ps)
  {
    hide FString, EncFString, ValueBytes, Payload, PlausibleName, PlausibleType, Sized, TypeOf;
    if ps == [] {
      assert EncList(ps) + (EncFString("None") + tail) == EncFString("None") + tail;
      EndBack(tail, at);
    } else {
      var p := ps[0];
      var size := PackUnsigned(|ValueBytes(p)|, 8);
      var rest := size + ((Payload(p) + EncList(ps[1..])) + (EncFString("None") + tail));
      Unfolded(EncFString(p.name), EncFString(TypeOf(p)), size, Payload(p) + EncList(ps[1..]), EncFString("None") + tail);
      FStringBack(p.name, EncFString(TypeOf(p)) + rest, at);
      FStringBack(TypeOf(p), rest, at + |EncFString(p.name)|);
    }
  }

  function Became(p: Prop): Outcome
    requires PropOk(p)
  {
    if p.UnknownProp? then Skipped(|Payload(p)|) else Kept(TreeValue(p), |Payload(p)|)
  }

  /** One encoded property in front of the rest of its list. */
  lemma {:induction false} PropBack(p: Prop, next: seq<Prop>, tail: seq<Byte>, at: nat, path: string)
    requires PropOk(p) && Sized(p) && ListOk(next) && ListSized(next) && (p.UnknownProp? ==> Recognisable(next))
    ensures Property(Payload(p) + (EncList(next) + (EncFString("None") + tail)), at, TypeOf(p), |ValueBytes(p)|, Join(path, p.name))
            == (Became(p), Notes([p], path))
    decreases p, 2
  {
    hide Property, Walk, FString, EncFString, EncList, Tree, TreeValue, ListOk, ListSized, ValueBytes, Payload, Plausible, Notes, NameOk, TypeOk;
    var after := EncList(next) + (EncFString("None") + tail);
    var here := Join(path, p.name);
    NotesOne(p, path);
    match p
    case BoolProp(_, _) => BoolBack(p, after, at, here);
    case EnumProp(_, _, _) => EnumBack(p, after, at, here);
    case StructProp(_, _, _) => StructBack(p, after, at, here);
    case MapProp(_, _, _, _) => MapPropBack(p, after, at, here);
    case UnknownProp(_, _, _) =>
      RecognisedBack(next, tail, at + |Payload(p)|);
      UnknownBack(p, after, at, here);
    case _ => PlainBack(p, after, at, here);
  }

  lemma MapPropBack(p: Prop, after: seq<Byte>, at: nat, here: string)
    requires PropOk(p) && p.MapProp?
    ensures Property(Payload(p) + after, at, TypeOf(p), |ValueBytes(p)|, here) == (Kept(TreeValue(p), |Payload(p)|), [])
  {
    hide Property, ContainerValue, ReadContainer, Payload, MapBody, NameOk, TypeOk, EntriesOk, EntriesTree;
    ContainerHeadBack(p, after, at);
    MapBack(p.keyType, p.valueType, p.entries, after, at + |Payload(p)| - |ValueBytes(p)|, |ValueBytes(p)|, here);
    ContainerBack(p, after, at, here, TreeValue(p), []);
  }

  lemma {:induction false} StructBack(p: Prop, after: seq<Byte>, at: nat, here: string)
    requires PropOk(p) && Sized(p) && p.StructProp?
    ensures Property(Payload(p) + after, at, TypeOf(p), |ValueBytes(p)|, here) == (Kept(TreeValue(p), |Payload(p)|), Notes(p.fields, here))
    decreases p, 1
  {
    hide Property, Walk, ReadContainer, Payload, EncFString, EncList, FString, Tree, Notes, Fields, NameOk, TypeOk, IsFixedStruct, ListOk,
      ListSized;
    ContainerHeadBack(p, after, at);
    ListBack(p.fields, after, at + |Payload(p)| - |ValueBytes(p)|, here);
    assert ValueBytes(p) + after == EncList(p.fields) + (EncFString("None") + after);
    ContainerBack(p, after, at, here, TreeValue(p), Notes(p.fields, here));
  }

  lemma NotesOne(p: Prop, path: string)
    ensures Notes([p], path) ==
            match p
            case UnknownProp(_, unknownType, _) => [Note(Join(path, p.name), "skipped unknown property type " + unknownType)]
            case StructProp(_, _, fields) => Notes(fields, Join(path, p.name))
            case _ => []
  {
    assert [p][1..] == [];
  }

  /** Reading an encoded list, at any depth, gives its tree, ends right behind it, and notes the unknown types. */
  lemma {:induction false} ListBack(ps: seq<Prop>, tail: seq<Byte>, at: nat, path: string)
    requires ListOk(ps) && ListSized(ps)
    ensures ReadsAs(ps, Walk(EncList(ps) + (EncFString("None") + tail), at, path), path)
    decreases ps, 0
  {
    hide Walk, Property, ReadHead, EncFString, Payload, ValueBytes, EncHead, EncList, PropOk, Sized, Fields, Tree, Notes,
      ListOk, ListSized, ReadsAs, Recognisable, Became, ItemOf, Ahead;
    var r := EncList(ps) + (EncFString("None") + tail);
    if ps == [] {
      NothingBack(tail, at, path);
    } else {
      var p, next := ps[0], ps[1..];
      ListOkCons(ps);
      var after := EncList(next) + (EncFString("None") + tail);
      var h, n := |EncHead(p)|, |Payload(p)|;
      assert r == EncHead(p) + (Payload(p) + after);
      PropBack(p, next, tail, at + h, path);
      ListBack(next, tail, at + h + n, path);
      FirstBack(p, after, at, path);
      var extent :| Walk(r, at, path) == Ahead([ItemOf(p.name, extent, Became(p))], h + n, Notes([p], path), Walk(after, at + h + n, path));
      ReadsCons(ps, extent, Walk(after, at + h + n, path), path);
    }
  }

  lemma ListOkCons(ps: seq<Prop>)
    requires ps != [] && ListOk(ps) && ListSized(ps)
    ensures PropOk(ps[0]) && Sized(ps[0]) && ListOk(ps[1..]) && ListSized(ps[1..])
    ensures ps[0].UnknownProp? ==> Recognisable(ps[1..])
    ensures EncList(ps) == EncHead(ps[0]) + (Payload(ps[0]) + EncList(ps[1..]))
  {
    hide PropOk, Sized, Recognisable, EncHead, Payload;
  }

  lemma NothingBack(tail: seq<Byte>, at: nat, path: string)
    ensures ReadsAs([], Walk(EncList([]) + (EncFString("None") + tail), at, path), path)
  {
    hide Walk, ReadHead, EncFString;
    assert EncList([]) + (EncFString("None") + tail) == EncFString("None") + tail;
    EndBack(tail, at);
    WalkStops(EncFString("None") + tail, at, path);
  }

  /** A property in front of a list that was read back. */
  lemma ReadsCons(ps: seq<Prop>, extent: Option<(nat, nat)>, w: Walked, path: string)
    requires ps != [] && ListOk(ps) && PropOk(ps[0]) && ListOk(ps[1..]) && ReadsAs(ps[1..], w, path)
    requires EncList(ps) == EncHead(ps[0]) + (Payload(ps[0]) + EncList(ps[1..]))
    ensures ReadsAs(ps, Ahead([ItemOf(ps[0].name, extent, Became(ps[0]))], |EncHead(ps[0])| + |Payload(ps[0])|, Notes([ps[0]], path), w), path)
  {
    hide EncHead, Payload, EncFString, EncList, PropOk, ListOk, Notes, Tree, Fields, TreeValue;
    var p := ps[0];
    assert ps == [p] + ps[1..];
    NotesCons(p, ps[1..], path);
    FieldsCons(ItemOf(p.name, extent, Became(p)), w.items);
    TreeCons(ps);
  }

  lemma TreeCons(ps: seq<Prop>)
    requires ps != []
    ensures Tree(ps) == (if ps[0].UnknownProp? then map[] else map[ps[0].name := TreeValue(ps[0])]) + Tree(ps[1..])
  {
    hide TreeValue;
  }

  ghost predicate ReadsAs(ps: seq<Prop>, w: Walked, path: string)
    requires ListOk(ps)
  {
    && w.finish == Got((), |EncList(ps)| + |EncFString("None")|)
    && Fields(w.items) == Tree(ps) && w.log == Notes(ps, path)
  }

  lemma FirstBack(p: Prop, after: seq<Byte>, at: nat, path: string)
    requires PropOk(p) && Sized(p)
    requires Property(Payload(p) + after, at + |EncHead(p)|, TypeOf(p), |ValueBytes(p)|, Join(path, p.name))
             == (Became(p), Notes([p], path))
    ensures exists extent ::
              Walk(EncHead(p) + (Payload(p) + after), at, path) ==
              Ahead([ItemOf(p.name, extent, Became(p))], |EncHead(p)| + |Payload(p)|, Notes([p], path),
                    Walk(after, at + |EncHead(p)| + |Payload(p)|, path))
  {
    hide Walk, Property, ReadHead, Extent, Payload, ValueBytes, EncHead, TreeValue, Notes, PropOk, Sized, Join;
    var r := EncHead(p) + (Payload(p) + after);
    var h, n := |EncHead(p)|, |Payload(p)|;
    SizedHead(p);
    HeadBack(p, Payload(p) + after, at);
    Cut(Payload(p), after);
    assert r[h + n..] == r[h..][n..];
    WalkContinues(r, at, path);
  }

  lemma SizedHead(p: Prop)
    requires PropOk(p) && Sized(p)
    ensures |ValueBytes(p)| < 0x1_0000_0000_0000_0000
  {
  }

  lemma NotesCons(p: Prop, next: seq<Prop>, path: string)
    ensures Notes([p] + next, path) == Notes([p], path) + Notes(next, path)
  {
    assert ([p] + next)[1..] == next;
    NotesOne(p, path);
  }

  /** `Fields` read from the front: later fields win. */
  lemma {:induction false} FieldsCons(item: Item, items: seq<Item>)
    ensures Fields([item] + items) == (if item.value.Some? then map[item.name := item.value.value] else map[]) + Fields(items)
    decreases |items|
  {
    var all := [item] + items;
    if items == [] {
      assert all[..0] == [];
    } else {
      var k := |items| - 1;
      assert all[..|all| - 1] == [item] + items[..k];
      FieldsCons(item, items[..k]);
    }
  }

  /**
   The only encoded property that the reader cannot take is one of unknown type in front of a
   sibling whose name or type does not look like one.
   */
  lemma BrokenIffNotRecognisable(p: Prop, next: seq<Prop>, tail: seq<Byte>, at: nat, path: string)
    requires PropOk(p) && Sized(p) && ListOk(next) && ListSized(next)
    ensures Property(Payload(p) + (EncList(next) + (EncFString("None") + tail)), at, TypeOf(p), |ValueBytes(p)|, Join(path, p.name)).0.Broken?
            <==> p.UnknownProp? && !Recognisable(next)
  {
    hide Property, Walk, FString, EncFString, EncList, Tree, TreeValue, Notes, ListOk, ListSized, ValueBytes, Payload, Plausible;
    if p.UnknownProp? {
      RecognisedBack(next, tail, at + |Payload(p)|);
      UnknownBack(p, EncList(next) + (EncFString("None") + tail), at, Join(path, p.name));
    } else {
      PropBack(p, next, tail, at, path);
    }
  }

  // ---------------------------------------------------------------------------------------------
  // The whole file
  // ---------------------------------------------------------------------------------------------

  lemma Behind(r: seq<Byte>, x: seq<Byte>, y: seq<Byte>, n: nat, k: nat)
    requires n + k <= |r| && r[n..] == x + y && |x| == k
    ensures r[n + k..] == y
  {
    Cut(x, y);
    assert r[n + k..] == r[n..][k..];
  }

  lemma FixedBack(rest: seq<Byte>)
    ensures var r := FixedHeader() + rest;
            && TakeSigned(r, 0, 4) == Got(0x53415647, 4) && TakeSigned(r[4..], 4, 4) == Got(3, 4)
            && Take(r[8..], 8, 8).Got? && Take(r[16..], 16, 10).Got? && |FixedHeader()| == 26 && r[26..] == rest
  {
    hide TakeSigned, PackSigned;
    Powers();
    var magic, version, packages := PackSigned(0x53415647, 4), PackSigned(3, 4), PackSigned(522, 4) + PackSigned(1008, 4);
    EngineIsTen();
    hide Engine;
    var end := packages + Engine();
    RightNested(magic, version, end, rest);
    SignedBack(0x53415647, 4, version + (end + rest), 0);
    SignedBack(3, 4, end + rest, 4);
    Cut(FixedHeader(), rest);
  }

  lemma RightNested(a: seq<Byte>, b: seq<Byte>, c: seq<Byte>, d: seq<Byte>)
    ensures (a + (b + c)) + d == a + (b + (c + d))
  {
  }

  lemma HeaderSlices(main: seq<Byte>, custom: seq<Byte>, count: seq<Byte>, name: seq<Byte>, tail: seq<Byte>)
    requires |custom| == 4 && |count| == 4
    ensures var a := |main|;
            var r := main + (custom + (count + (name + tail)));
            && (main + (custom + (count + name))) + tail == r
            && r[a..] == custom + (count + (name + tail)) && r[a + 4..] == count + (name + tail) && r[a + 8..] == name + tail
  {
    RightNested(main, custom, count + name, tail);
    RightNestedOne(count, name, tail);
    var r := main + (custom + (count + (name + tail)));
    Behind(r, main, custom + (count + (name + tail)), 0, |main|);
    Behind(r, custom, count + (name + tail), |main|, 4);
    Behind(r, count, name + tail, |main| + 4, 4);
  }

  lemma HeaderRestBack(saveClass: string, tail: seq<Byte>)
    requires TypeOk(saveClass)
    ensures HeaderRest(EncHeaderRest(saveClass) + tail, 26) == Got((), |EncHeaderRest(saveClass)|)
  {
    hide FString, EncFString, TakeSigned, TakeUnsigned, PackSigned, PackUnsigned, HeaderRest;
    Powers();
    var main, custom, count, name := EncFString("main"), PackSigned(3, 4), PackUnsigned(0, 4), EncFString(saveClass);
    HeaderSlices(main, custom, count, name, tail);
    var a := |main|;
    FStringBack("main", custom + (count + (name + tail)), 26);
    SignedBack(3, 4, count + (name + tail), 26 + a);
    UnsignedBack(0, 4, name + tail, 30 + a);
    FStringBack(saveClass, tail, 34 + a);
    HeaderRestParts(main + (custom + (count + (name + tail))), a, |name|);
  }

  lemma RightNestedOne(a: seq<Byte>, b: seq<Byte>, c: seq<Byte>)
    ensures (a + b) + c == a + (b + c)
  {
  }

  lemma FileHeaderBack(saveClass: string, tail: seq<Byte>)
    requires TypeOk(saveClass)
    ensures FileHeader(EncFileHeader(saveClass) + tail) == Got((), |EncFileHeader(saveClass)|)
  {
    hide HeaderRest, EncHeaderRest, TakeSigned, FixedHeader, Packs, Fits;
    RightNestedOne(FixedHeader(), EncHeaderRest(saveClass), tail);
    FixedBack(EncHeaderRest(saveClass) + tail);
    HeaderRestBack(saveClass, tail);
  }

  lemma EngineIsTen()
    ensures |Engine()| == 10
  {
    Powers();
  }

  lemma HeaderRestParts(r: seq<Byte>, a: nat, b: nat)
    requires FString(r, 26).Got? && FString(r, 26).used == a
    requires TakeSigned(r[a..], 26 + a, 4) == Got(3, 4) && TakeUnsigned(r[a + 4..], 30 + a, 4) == Got(0, 4)
    requires FString(r[a + 8..], 34 + a).Got? && FString(r[a + 8..], 34 + a).used == b
    ensures HeaderRest(r, 26) == Got((), 8 + a + b)
  {
    hide FString, TakeSigned, TakeUnsigned;
  }

  /**
   Parsing a built file gives exactly its tree, and a note for each property of unknown type at
   whatever depth it stands, under the cap on notes.
   */
  lemma ParseOfBuild(saveClass: string, ps: seq<Prop>)
    requires TypeOk(saveClass) && ListOk(ps) && ListSized(ps)
    ensures ParseGvas(BuildGvas(saveClass, ps)) == Ok((Tree(ps), RecordAll([], Notes(ps, ""))))
  {
    hide FileHeader, EncFileHeader, EncList, EncFString, Walk, Fields, Tree, Notes, RecordAll, ListOk, ListSized;
    var rest := EncList(ps) + (EncFString("None") + [0, 0, 0, 0]);
    FileHeaderBack(saveClass, rest);
    Cut(EncFileHeader(saveClass), rest);
    ListBack(ps, [0, 0, 0, 0], |EncFileHeader(saveClass)|, "");
  }

  // ---------------------------------------------------------------------------------------------
  // What the tree and the notes are
  // ---------------------------------------------------------------------------------------------

  /** The same properties without those of unknown type, at every depth. */
  function Known(ps: seq<Prop>): seq<Prop>
    decreases ps
  {
    if ps == [] then []
    else
      match ps[0]
      case UnknownProp(_, _, _) => Known(ps[1..])
      case StructProp(name, structType, fields) => [StructProp(name, structType, Known(fields))] + Known(ps[1..])
      case p => [p] + Known(ps[1..])
  }

  function Unknowns(ps: seq<Prop>): nat
    decreases ps
  {
    if ps == [] then 0
    else
      (match ps[0]
       case UnknownProp(_, _, _) => 1
       case StructProp(_, _, fields) => Unknowns(fields)
       case _ => 0)
      + Unknowns(ps[1..])
  }

  /** Properties of unknown type leave no trace in the tree, and one note each. */
  lemma {:induction false} UnknownsLeaveNotesOnly(ps: seq<Prop>, path: string)
    ensures Tree(ps) == Tree(Known(ps))
    ensures Notes(Known(ps), path) == []
    ensures |Notes(ps, path)| == Unknowns(ps)
    decreases ps
  {
    if ps != [] {
      UnknownsLeaveNotesOnly(ps[1..], path);
      if ps[0].StructProp? {
        UnknownsLeaveNotesOnly(ps[0].fields, Join(path, ps[0].name));
      }
    }
  }

  lemma {:induction false} KnownOk(ps: seq<Prop>)
    requires ListOk(ps) && ListSized(ps)
    ensures ListOk(Known(ps)) && ListSized(Known(ps)) && |EncList(Known(ps))| <= |EncList(ps)|
    decreases ps
  {
    hide EncFString, NameOk, TypeOk, Recognisable, MapBody, EntriesOk;
    if ps != [] {
      var p := ps[0];
      KnownOk(ps[1..]);
      ListOkCons(ps);
      if p.StructProp? {
        KnownOk(p.fields);
        var q := StructProp(p.name, p.structType, Known(p.fields));
        SameHead(p, q);
        KnownCons(q, Known(ps[1..]));
      } else if !p.UnknownProp? {
        KnownCons(p, Known(ps[1..]));
      }
    }
  }

  lemma SameHead(p: Prop, q: Prop)
    requires PropOk(p) && Sized(p) && p.StructProp?
    requires q.StructProp? && p.name == q.name && p.structType == q.structType && ListOk(q.fields) && ListSized(q.fields)
    requires |EncList(q.fields)| <= |EncList(p.fields)|
    ensures PropOk(q) && Sized(q) && |EncHead(q)| == |EncHead(p)| && |Payload(q)| <= |Payload(p)|
  {
    hide EncFString, ListOk, ListSized, NameOk, TypeOk;
    Powers();
  }

  lemma KnownCons(p: Prop, rest: seq<Prop>)
    requires PropOk(p) && Sized(p) && !p.UnknownProp? && ListOk(rest) && ListSized(rest)
    ensures ListOk([p] + rest) && ListSized([p] + rest)
    ensures |EncList([p] + rest)| == |EncHead(p)| + |Payload(p)| + |EncList(rest)|
  {
    hide PropOk, Sized, EncHead, Payload;
    var all := [p] + rest;
    assert all[0] == p && all[1..] == rest;
  }

  /** Taking the properties of unknown type out of a file, at any depth, changes its notes and nothing else. */
  lemma ParseWithoutUnknowns(saveClass: string, ps: seq<Prop>)
    requires TypeOk(saveClass) && ListOk(ps) && ListSized(ps)
    ensures ListOk(Known(ps)) && ParseGvas(BuildGvas(saveClass, Known(ps))) == Ok((Tree(ps), []))
    ensures ParseGvas(BuildGvas(saveClass, ps)).Ok? && ParseGvas(BuildGvas(saveClass, ps)).value.0 == Tree(ps)
  {
    hide BuildGvas, ParseGvas, Tree, Notes, ListOk, ListSized;
    KnownOk(ps);
    ParseOfBuild(saveClass, ps);
    ParseOfBuild(saveClass, Known(ps));
    UnknownsLeaveNotesOnly(ps, "");
  }

  predicate Unique(ps: seq<Prop>) {
    forall i, j | 0 <= i < j < |ps| :: ps[i].name != ps[j].name
  }

  /** With unique names every property is in the tree under its name, and nothing else is. */
  lemma {:induction false} TreeIsExact(ps: seq<Prop>, i: nat)
    requires Unique(ps) && i < |ps| && !ps[i].UnknownProp?
    ensures ps[i].name in Tree(ps) && Tree(ps)[ps[i].name] == TreeValue(ps[i])
  {
    hide TreeValue;
    if i > 0 {
      TreeIsExact(ps[1..], i - 1);
      TreeCons(ps);
    } else {
      TreeNames(ps[1..], ps[0].name);
      TreeCons(ps);
    }
  }

  lemma {:induction false} TreeNames(ps: seq<Prop>, name: string)
    ensures name in Tree(ps) <==> exists i | 0 <= i < |ps| :: ps[i].name == name && !ps[i].UnknownProp?
  {
    hide TreeValue;
    if ps != [] {
      TreeNames(ps[1..], name);
      TreeCons(ps);
      if i :| 0 <= i < |ps| && ps[i].name == name && !ps[i].UnknownProp? {
        assert i > 0 ==> ps[1..][i - 1] == ps[i];
      }
    }
  }

  function Clipped(note: string): string {
    if |note| <= MAX_ERROR_LEN then note else note[..MAX_ERROR_LEN]
  }

  /** The cap: the first 64 notes, cut to 160 characters, and one marker if there were more. */
  lemma {:induction false} NotesUnderTheCap(errors: seq<string>, log: seq<string>)
    requires |errors| <= MAX_ERRORS
    ensures var room := MAX_ERRORS - |errors|;
            RecordAll(errors, log) ==
            if |log| <= room then errors + seq(|log|, i requires 0 <= i < |log| => Clipped(log[i]))
            else errors + seq(room, i requires 0 <= i < room => Clipped(log[i])) + ["... further errors suppressed"]
    decreases |log|
  {
    if log != [] {
      if |errors| < MAX_ERRORS {
        NotesUnderTheCap(Record(errors, log[0]), log[1..]);
      } else {
        FullStaysFull(Record(errors, log[0]), log[1..]);
      }
    }
  }

  lemma {:induction false} FullStaysFull(errors: seq<string>, log: seq<string>)
    requires |errors| > MAX_ERRORS
    ensures RecordAll(errors, log) == errors
    decreases |log|
  {
    if log != [] {
      FullStaysFull(errors, log[1..]);
    }
  }
}
