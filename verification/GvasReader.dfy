/**
 The GVAS reader as lib/palwarden_gvas.py runs it: one cursor that every read advances and that
 containment moves back, and one list of errors filled on the way. Each method is proved to do what
 GvasFormat says of the bytes left at the cursor. `Err` is the internal parse error; after it the
 cursor may be anywhere, exactly as far as the caller is concerned, which reseeks or gives up.
 */
module GvasReader {
  import opened Wrappers
  import opened Bytes
  import opened GvasFormat

  /** A property either yields a value or has been noted and resynchronised. */
  datatype Fate = Value(value: Value) | Skip

  class Reader {
    const data: seq<Byte>
    var pos: nat
    var errors: seq<string>

    constructor (data: seq<Byte>)
      ensures this.data == data && pos == 0 && errors == []
    {
      this.data := data;
      pos, errors := 0, [];
    }

    ghost predicate Valid()
      reads this
    {
      pos <= |data|
    }

    ghost function Rest(): (r: seq<Byte>)
      requires Valid()
      reads this
    {
      data[pos..]
    }

    /** The cursor moved as the read `spec`, started at `start`, says. */
    ghost predicate Moved<T>(spec: Read<T>, start: nat, r: Result<T, string>)
      reads this
    {
      match spec
      case Got(v, used) => r == Ok(v) && pos == start + used
      case Failed(why) => r == Err(why)
    }

    // -------------------------------------------------------------------------------------------
    // Primitives
    // -------------------------------------------------------------------------------------------

    method Read(n: nat) returns (r: Result<seq<Byte>, string>)
      requires Valid()
      modifies this`pos
      ensures Valid() && Moved(Take(old(Rest()), old(pos), n), old(pos), r)
      ensures pos == if r.Ok? then old(pos) + n else old(pos)
    {
      var end := pos + n;
      if end > |data| {
        return Err("eof reading " + Decimal(n) + " bytes at " + Decimal(pos));
      }
      assert data[pos..end] == data[pos..][..n];
      r := Ok(data[pos..end]);
      pos := end;
    }

    method ReadUnsigned(width: nat) returns (r: Result<nat, string>)
      requires Valid()
      modifies this`pos
      ensures Valid() && Moved(TakeUnsigned(old(Rest()), old(pos), width), old(pos), r)
    {
      var b := Read(width);
      r := match b case Ok(v) => Ok(Unsigned(v)) case Err(e) => Err(e);
    }

    method ReadSigned(width: nat) returns (r: Result<int, string>)
      requires Valid()
      modifies this`pos
      ensures Valid() && Moved(TakeSigned(old(Rest()), old(pos), width), old(pos), r)
    {
      var b := Read(width);
      r := match b case Ok(v) => Ok(Signed(v)) case Err(e) => Err(e);
    }

    method ReadFString() returns (r: Result<string, string>)
      requires Valid()
      modifies this`pos
      ensures Valid() && Moved(FString(old(Rest()), old(pos)), old(pos), r)
    {
      var head := ReadSigned(4);
      if head.Err? {
        return Err(head.error);
      }
      var n := head.value;
      if n == 0 {
        return Ok("");
      }
      if n < 0 {
        if -n > MAX_FSTRING {
          return Err("implausible utf-16 string length " + Decimal(-n));
        }
        var b := Read(2 * -n);
        r := match b case Ok(v) => Ok(DecodeUtf16(v[..|v| - 2])) case Err(e) => Err(e);
      } else {
        if n > MAX_FSTRING {
          return Err("implausible string length " + Decimal(n));
        }
        var b := Read(n);
        r := match b case Ok(v) => Ok(DecodeAscii(v[..|v| - 1])) case Err(e) => Err(e);
      }
    }

    method ReadOptionalGuid() returns (r: Result<(), string>)
      requires Valid()
      modifies this`pos
      ensures Valid() && Moved(OptionalGuid(old(Rest()), old(pos)), old(pos), r)
    {
      var flag := ReadUnsigned(1);
      if flag.Err? {
        return Err(flag.error);
      }
      if flag.value != 0 {
        var b := Read(16);
        if b.Err? {
          return Err(b.error);
        }
      }
      r := Ok(());
    }

    // -------------------------------------------------------------------------------------------
    // Scalars and headers
    // -------------------------------------------------------------------------------------------

    method ReadInteger(signed: bool, width: nat) returns (r: Result<GvasFormat.Value, string>)
      requires Valid()
      modifies this`pos
      ensures Valid()
      ensures Moved(if signed then TakeSigned(old(Rest()), old(pos), width).Map(n => Num(n))
                    else TakeUnsigned(old(Rest()), old(pos), width).Map(n => Num(n)), old(pos), r)
    {
      var b := Read(width);
      r := match b case Ok(v) => Ok(Num(if signed then Signed(v) else Unsigned(v))) case Err(e) => Err(e);
    }

    method ReadRaw(width: nat) returns (r: Result<GvasFormat.Value, string>)
      requires Valid()
      modifies this`pos
      ensures Valid() && Moved(Take(old(Rest()), old(pos), width).Map(b => Raw(b)), old(pos), r)
    {
      var b := Read(width);
      r := match b case Ok(v) => Ok(Raw(v)) case Err(e) => Err(e);
    }

    method ReadText() returns (r: Result<GvasFormat.Value, string>)
      requires Valid()
      modifies this`pos
      ensures Valid() && Moved(FString(old(Rest()), old(pos)).Map(s => Text(s)), old(pos), r)
    {
      var s := ReadFString();
      r := match s case Ok(v) => Ok(Text(v)) case Err(e) => Err(e);
    }

    method ReadScalarElement(typeName: string) returns (r: Result<GvasFormat.Value, string>)
      requires Valid()
      modifies this`pos
      ensures Valid() && Moved(ScalarElement(typeName, old(Rest()), old(pos)), old(pos), r)
    {
      if typeName == "NameProperty" || typeName == "EnumProperty" || typeName == "StrProperty" {
        r := ReadText();
      } else if typeName == "IntProperty" {
        r := ReadInteger(true, 4);
      } else if typeName == "Int64Property" {
        r := ReadInteger(true, 8);
      } else if typeName == "UInt32Property" {
        r := ReadInteger(false, 4);
      } else if typeName == "FloatProperty" {
        r := ReadRaw(4);
      } else if typeName == "BoolProperty" {
        var b := ReadUnsigned(1);
        r := match b case Ok(v) => Ok(Flag(v > 0)) case Err(e) => Err(e);
      } else {
        r := Err("unknown element type " + typeName);
      }
    }

    method ReadAfterGuid(typeName: string) returns (r: Result<GvasFormat.Value, string>)
      requires Valid()
      modifies this`pos
      ensures Valid() && Moved(AfterGuid(typeName, old(Rest()), old(pos)), old(pos), r)
    {
      if typeName == "IntProperty" || typeName == "FixedPoint64Property" {
        r := ReadInteger(true, 4);
      } else if typeName == "Int64Property" {
        r := ReadInteger(true, 8);
      } else if typeName == "UInt32Property" {
        r := ReadInteger(false, 4);
      } else if typeName == "UInt16Property" {
        r := ReadInteger(false, 2);
      } else if typeName == "FloatProperty" {
        r := ReadRaw(4);
      } else {
        r := ReadText();
      }
    }

    method ReadBool() returns (r: Result<GvasFormat.Value, string>)
      requires Valid()
      modifies this`pos
      ensures Valid() && Moved(BoolScalar(old(Rest()), old(pos)), old(pos), r)
    {
      hide OptionalGuid, TakeUnsigned;
      var b := ReadUnsigned(1);
      if b.Err? {
        return Err(b.error);
      }
      var g := ReadOptionalGuid();
      r := match g case Ok(_) => Ok(Flag(b.value > 0)) case Err(e) => Err(e);
    }

    method ReadEnumOrByte(typeName: string) returns (r: Result<GvasFormat.Value, string>)
      requires Valid()
      modifies this`pos
      ensures Valid() && Moved(EnumOrByte(typeName, old(Rest()), old(pos)), old(pos), r)
    {
      hide FString, OptionalGuid, TakeUnsigned;
      var e := ReadFString();
      if e.Err? {
        return Err(e.error);
      }
      var g := ReadOptionalGuid();
      if g.Err? {
        return Err(g.error);
      }
      if typeName == "ByteProperty" && e.value == "None" {
        r := ReadInteger(false, 1);
      } else {
        r := ReadText();
      }
    }

    method ReadScalar(typeName: string) returns (r: Result<GvasFormat.Value, string>)
      requires Valid()
      modifies this`pos
      ensures Valid() && Moved(Scalar(typeName, old(Rest()), old(pos)), old(pos), r)
    {
      hide EnumOrByte, BoolScalar, AfterGuid, OptionalGuid;
      if typeName == "BoolProperty" {
        r := ReadBool();
      } else if typeName == "EnumProperty" || typeName == "ByteProperty" {
        r := ReadEnumOrByte(typeName);
      } else {
        var g := ReadOptionalGuid();
        if g.Err? {
          return Err(g.error);
        }
        r := ReadAfterGuid(typeName);
      }
    }

    method ReadPropertyHead() returns (r: Result<PropertyHead, string>)
      requires Valid()
      modifies this`pos
      ensures Valid() && Moved(ReadHead(old(Rest()), old(pos)), old(pos), r)
    {
      hide FString, TakeUnsigned;
      var name := ReadFString();
      if name.Err? {
        return Err(name.error);
      }
      if name.value == "None" {
        return Ok(End);
      }
      if name.value == "" {
        return Err("empty property name");
      }
      var typeName := ReadFString();
      if typeName.Err? {
        return Err(typeName.error);
      }
      var size := ReadUnsigned(8);
      r := match size case Ok(n) => Ok(Head(name.value, typeName.value, n)) case Err(e) => Err(e);
    }

    method ReadContainerRest(typeName: string, first: string) returns (r: Result<Container, string>)
      requires Valid()
      modifies this`pos
      ensures Valid() && Moved(ContainerRest(typeName, first, old(Rest()), old(pos)), old(pos), r)
    {
      if typeName == "StructProperty" {
        var id := Read(16);
        r := match id case Ok(_) => Ok(StructOf(first)) case Err(e) => Err(e);
      } else if typeName == "MapProperty" {
        var second := ReadFString();
        r := match second case Ok(v) => Ok(MapOf(first, v)) case Err(e) => Err(e);
      } else {
        r := Ok(if typeName == "ArrayProperty" then ArrayOf(first) else SetOf(first));
      }
    }

    method ReadContainerHead(typeName: string) returns (r: Result<Container, string>)
      requires Valid()
      modifies this`pos
      ensures Valid() && Moved(ReadContainer(typeName, old(Rest()), old(pos)), old(pos), r)
    {
      hide FString, ContainerRest, OptionalGuid;
      var first := ReadFString();
      if first.Err? {
        return Err(first.error);
      }
      r := ReadContainerRest(typeName, first.value);
      if r.Ok? {
        var g := ReadOptionalGuid();
        if g.Err? {
          return Err(g.error);
        }
      }
    }

    /** Peeks: the cursor is back where it was. */
    method PlausibleNext() returns (plausible: bool)
      requires Valid()
      modifies this`pos
      ensures Valid() && pos == old(pos) && plausible == Plausible(Rest(), pos)
    {
      hide FString, PlausibleName, PlausibleType;
      var save := pos;
      plausible := false;
      var name := ReadFString();
      if name.Ok? {
        if name.value == "None" {
          plausible := true;
        } else if PlausibleName(name.value) {
          var typeName := ReadFString();
          plausible := typeName.Ok? && PlausibleType(typeName.value);
        }
      }
      pos := save;
    }

    method RecordNote(path: string, why: string)
      requires Valid()
      modifies this`errors
      ensures Valid() && errors == GvasFormat.Record(old(errors), Note(path, why))
    {
      errors := GvasFormat.Record(errors, Note(path, why));
    }

    // -------------------------------------------------------------------------------------------
    // Values and property lists
    // -------------------------------------------------------------------------------------------

    /** The cursor and the errors after the value `spec` was read. */
    ghost predicate Followed<T>(spec: Out<T>, start: nat, before: seq<string>, r: Result<T, string>)
      reads this
    {
      Moved(spec.result, start, r) && errors == RecordAll(before, spec.log)
    }

    method Properties(path: string) returns (r: Result<map<string, GvasFormat.Value>, string>)
      requires Valid()
      modifies this`pos, this`errors
      ensures Valid()
      ensures var w := Walk(old(Rest()), old(pos), path);
              Followed(Out(w.finish.Map(_ => Fields(w.items)), w.log), old(pos), old(errors), r)
      decreases |data| - pos, 0
    {
      hide Walk, Property, ReadHead, Extent, RecordAll, Fields, Ahead, Join;
      var out: map<string, GvasFormat.Value> := map[];
      ghost var whole := Walk(Rest(), pos, path);
      ghost var start, before := pos, errors;
      ghost var items: seq<Item>, log: seq<string> := [], [];
      RecordNothing(before);
      AheadNone(whole);
      FieldsOneMore([], ItemOf(path, None, Skipped(0)));
      while true
        invariant Valid() && start <= pos
        invariant whole == Ahead(items, pos - start, log, Walk(Rest(), pos, path))
        invariant out == Fields(items)
        invariant errors == RecordAll(before, log)
        decreases |data| - pos
      {
        ghost var r, here := Rest(), pos;
        var head := ReadPropertyHead();
        if head.Err? || head.value.End? {
          WalkStops(r, here, path);
          AheadStopped(items, here - start, log, Walk(r, here, path).finish, []);
          assert log + [] == log;
          return if head.Err? then Err(head.error) else Ok(out);
        }
        WalkContinues(r, here, path);
        ghost var h := ReadHead(r, here).used;
        var Head(name, typeName, size) := head.value;
        assert Rest() == r[h..];
        ghost var (outcome, more) := Property(Rest(), pos, typeName, size, Join(path, name));
        var fate := OneProperty(typeName, size, Join(path, name));
        RecordAllConcat(before, log, more);
        if fate.Err? {
          AheadStopped(items, here - start, log, Failed(outcome.why), more);
          return Err(fate.error);
        }
        ghost var item := ItemOf(name, Extent(typeName, size, r[h..], here + h), outcome);
        if fate.value.Value? {
          out := out[name := fate.value.value];
        }
        assert Rest() == r[h + outcome.used..];
        AheadTwice(items, here - start, log, [item], h + outcome.used, more, Walk(Rest(), pos, path));
        FieldsOneMore(items, item);
        items, log := items + [item], log + more;
      }
    }

    /** The cursor and the errors after the property outcome `spec`. */
    ghost predicate Decided(spec: (Outcome, seq<string>), start: nat, before: seq<string>, r: Result<Fate, string>)
      reads this
    {
      errors == RecordAll(before, spec.1) &&
      match spec.0
      case Kept(v, used) => r == Ok(Fate.Value(v)) && pos == start + used
      case Skipped(used) => r == Ok(Skip) && pos == start + used
      case Broken(why) => r == Err(why)
    }

    method OneProperty(typeName: string, size: nat, path: string) returns (r: Result<Fate, string>)
      requires Valid()
      modifies this`pos, this`errors
      ensures Valid() && Decided(Property(old(Rest()), old(pos), typeName, size, path), old(pos), old(errors), r)
      decreases |data| - pos, 5
    {
      hide Scalar, ReadContainer, ContainerValue, RecordAll, SkipUnknown;
      RecordNothing(errors);
      if IsScalar(typeName) {
        var v := ReadScalar(typeName);
        return match v case Ok(x) => Ok(Fate.Value(x)) case Err(e) => Err(e);
      }
      if IsContainer(typeName) {
        var container := ReadContainerHead(typeName);
        if container.Err? {
          return Err(container.error);
        }
        if pos + size > |data| {
          return Err("value extent " + Decimal(size) + " exceeds file");
        }
        r := Contained(container.value, size, path);
      } else {
        r := Unknown(typeName, size, path);
      }
    }

    method Unknown(typeName: string, size: nat, path: string) returns (r: Result<Fate, string>)
      requires Valid()
      modifies this`pos, this`errors
      ensures Valid()
      ensures match SkipUnknown(size, old(Rest()), old(pos))
              case Some(n) => r == Ok(Skip) && pos == old(pos) + n
                              && errors == RecordAll(old(errors), [Note(path, "skipped unknown property type " + typeName)])
              case None => r == Err("unknown property type " + typeName) && pos == old(pos) && errors == old(errors)
    {
      hide OptionalGuid, Plausible, RecordAll;
      var start := pos;
      var plausible := false;
      var g := ReadOptionalGuid();
      if g.Ok? {
        var b := Read(size);
        if b.Ok? {
          plausible := PlausibleNext();
        }
      }
      if plausible {
        RecordNote(path, "skipped unknown property type " + typeName);
        RecordOne(old(errors), Note(path, "skipped unknown property type " + typeName));
        return Ok(Skip);
      }
      pos := start;
      r := Err("unknown property type " + typeName);
    }

    /**
     Runs the inner reader, which may stop anywhere in the file, and puts the cursor at the end of the
     extent whatever happened.
     */
    method Contained(container: Container, size: nat, path: string) returns (r: Result<Fate, string>)
      requires Valid() && pos + size <= |data|
      modifies this`pos, this`errors
      ensures Valid() && pos == old(pos) + size
      ensures Decided(Contain(ContainerValue(old(Rest()), old(pos), container, size, path), size, old(pos), path),
                      old(pos), old(errors), r)
      decreases |data| - pos, 4
    {
      hide ContainerValue, RecordAll;
      ghost var spec := ContainerValue(Rest(), pos, container, size, path);
      var start, end := pos, pos + size;
      var value := ReadContainerValue(container, size, path);
      if value.Ok? && pos == end {
        return Ok(Fate.Value(value.value));
      }
      var why := if value.Ok? then "value ended at " + Decimal(pos) + ", expected " + Decimal(end) else value.error;
      RecordNote(path, why);
      RecordOne(RecordAll(old(errors), spec.log), Note(path, why));
      RecordAllConcat(old(errors), spec.log, [Note(path, why)]);
      pos := end;
      r := Ok(Skip);
    }

    method ReadContainerValue(container: Container, size: nat, path: string) returns (r: Result<GvasFormat.Value, string>)
      requires Valid()
      modifies this`pos, this`errors
      ensures Valid() && Followed(ContainerValue(old(Rest()), old(pos), container, size, path), old(pos), old(errors), r)
      decreases |data| - pos, 3
    {
      hide StructValue, ArrayValue, MapEntries, SetItems, RecordAll;
      RecordNothing(errors);
      if container.StructOf? {
        r := ReadStruct(container.structType, path);
        return;
      }
      if container.ArrayOf? {
        r := ReadArray(container.elementType, size, path);
        return;
      }
      var removed := Read(4);
      if removed.Err? {
        return Err(removed.error);
      }
      var count := ReadUnsigned(4);
      if count.Err? {
        return Err(count.error);
      }
      if container.MapOf? {
        var m := ReadMap(container.keyType, container.valueType, count.value, path);
        r := match m case Ok(v) => Ok(Dict(v)) case Err(e) => Err(e);
      } else {
        var l := ReadSet(container.elementType, count.value, path);
        r := match l case Ok(v) => Ok(List(v)) case Err(e) => Err(e);
      }
    }

    method ReadRawFields(names: seq<string>, width: nat) returns (r: Result<map<string, GvasFormat.Value>, string>)
      requires Valid()
      modifies this`pos
      ensures Valid() && Moved(RawFields(names, width, old(Rest()), old(pos)), old(pos), r)
    {
      hide RawFields, Take;
      var fields: map<string, GvasFormat.Value> := map[];
      if names == [] {
        RawFieldsNone(width, Rest(), pos);
        return Ok(fields);
      }
      RawFieldsStep(names, width, Rest(), pos, 0);
      for i := 0 to |names|
        invariant old(pos) <= pos && Valid()
        invariant RawFields(names[..i], width, old(Rest()), old(pos)) == Got(fields, pos - old(pos))
      {
        RawFieldsStep(names, width, old(Rest()), old(pos), i);
        assert Rest() == old(Rest())[pos - old(pos)..];
        var b := Read(width);
        if b.Err? {
          RawFieldsFail(names, width, old(Rest()), old(pos), i + 1);
          return Err(b.error);
        }
        fields := fields[names[i] := Raw(b.value)];
      }
      assert names[..|names|] == names;
      r := Ok(fields);
    }

    method ReadStruct(structType: string, path: string) returns (r: Result<GvasFormat.Value, string>)
      requires Valid()
      modifies this`pos, this`errors
      ensures Valid() && Followed(StructValue(old(Rest()), old(pos), structType, path), old(pos), old(errors), r)
      decreases |data| - pos, 1
    {
      hide Walk, RawFields, RecordAll, TakeUnsigned, Take, Fields;
      RecordNothing(errors);
      if structType == "DateTime" {
        r := ReadInteger(false, 8);
      } else if structType == "Guid" {
        r := ReadRaw(16);
      } else if IsFixedStruct(structType) {
        var fields := ReadRawFields(FixedFields(structType), if structType == "LinearColor" then 4 else 8);
        r := match fields case Ok(m) => Ok(Dict(m)) case Err(e) => Err(e);
      } else {
        var props := Properties(path);
        r := match props case Ok(m) => Ok(Dict(m)) case Err(e) => Err(e);
      }
    }

    method ReadStructArrayHead() returns (r: Result<(string, string), string>)
      requires Valid()
      modifies this`pos
      ensures Valid() && Moved(StructArrayHead(old(Rest()), old(pos)), old(pos), r)
    {
      hide FString, TakeUnsigned, Take;
      var name := ReadFString();
      if name.Err? { return Err(name.error); }
      var propType := ReadFString();
      if propType.Err? { return Err(propType.error); }
      var inner := ReadUnsigned(8);
      if inner.Err? { return Err(inner.error); }
      var structType := ReadFString();
      if structType.Err? { return Err(structType.error); }
      var id := Read(16);
      if id.Err? { return Err(id.error); }
      var flag := Read(1);
      r := match flag case Ok(_) => Ok((name.value, structType.value)) case Err(e) => Err(e);
    }

    method ReadArray(elementType: string, size: nat, path: string) returns (r: Result<GvasFormat.Value, string>)
      requires Valid()
      modifies this`pos, this`errors
      ensures Valid() && Followed(ArrayValue(old(Rest()), old(pos), elementType, size, path), old(pos), old(errors), r)
      decreases |data| - pos, 2
    {
      hide StructArrayHead, StructItems, FlatItems, RecordAll, TakeUnsigned, Take;
      RecordNothing(errors);
      var count := ReadUnsigned(4);
      if count.Err? {
        return Err(count.error);
      }
      if elementType == "StructProperty" {
        var head := ReadStructArrayHead();
        if head.Err? {
          return Err(head.error);
        }
        var l := ReadStructItems(head.value.1, count.value, path + "." + head.value.0);
        r := match l case Ok(v) => Ok(List(v)) case Err(e) => Err(e);
      } else if elementType == "ByteProperty" {
        if size != count.value + 4 {
          return Err("labelled ByteProperty array");
        }
        var b := Read(count.value);
        r := match b case Ok(_) => Ok(Blob(count.value)) case Err(e) => Err(e);
      } else if elementType == "Guid" || IsScalarElement(elementType) {
        var l := ReadFlatItems(elementType, count.value);
        r := match l case Ok(v) => Ok(List(v)) case Err(e) => Err(e);
      } else {
        r := Err("unknown array element type " + elementType);
      }
    }

    method ReadFlatItems(elementType: string, count: nat) returns (r: Result<seq<GvasFormat.Value>, string>)
      requires Valid()
      modifies this`pos
      ensures Valid() && Moved(FlatItems(old(Rest()), old(pos), elementType, count), old(pos), r)
    {
      hide ScalarElement, FlatItems;
      var out: seq<GvasFormat.Value> := [];
      ghost var start, whole := pos, FlatItems(Rest(), pos, elementType, count);
      ResumedTwice([], [], whole);
      for i := 0 to count
        invariant Valid() && start <= pos
        invariant whole == Resumed(out, pos - start, FlatItems(Rest(), pos, elementType, count - i))
      {
        FlatItemsStep(Rest(), pos, elementType, count - i);
        var v: Result<GvasFormat.Value, string>;
        if elementType == "Guid" {
          v := ReadRaw(16);
        } else {
          v := ReadScalarElement(elementType);
        }
        if v.Err? {
          return Err(v.error);
        }
        ResumedTwice(out, [v.value], FlatItems(Rest(), pos, elementType, count - i - 1));
        out := out + [v.value];
      }
      FlatItemsStep(Rest(), pos, elementType, 0);
      assert out + [] == out;
      r := Ok(out);
    }

    method ReadStructItems(structType: string, count: nat, path: string) returns (r: Result<seq<GvasFormat.Value>, string>)
      requires Valid()
      modifies this`pos, this`errors
      ensures Valid() && Followed(StructItems(old(Rest()), old(pos), structType, 0, count, path), old(pos), old(errors), r)
      decreases |data| - pos, 2
    {
      hide StructValue, StructItems, RecordAll;
      var out: seq<GvasFormat.Value> := [];
      ghost var start, before, log := pos, errors, [];
      ghost var whole := StructItems(Rest(), pos, structType, 0, count, path);
      RecordNothing(errors);
      ResumedTwice([], [], whole.result);
      for i := 0 to count
        invariant Valid() && start <= pos
        invariant whole.result == Resumed(out, pos - start, StructItems(Rest(), pos, structType, i, count, path).result)
        invariant whole.log == log + StructItems(Rest(), pos, structType, i, count, path).log
        invariant errors == RecordAll(before, log)
      {
        StructItemsStep(Rest(), pos, structType, i, count, path);
        ghost var more := StructValue(Rest(), pos, structType, Indexed(path, "", i)).log;
        var v := ReadStruct(structType, Indexed(path, "", i));
        RecordAllConcat(before, log, more);
        if v.Err? {
          return Err(v.error);
        }
        ghost var rest := StructItems(Rest(), pos, structType, i + 1, count, path);
        ResumedTwice(out, [v.value], rest.result);
        assert log + (more + rest.log) == (log + more) + rest.log;
        out, log := out + [v.value], log + more;
      }
      StructItemsStep(Rest(), pos, structType, count, count, path);
      assert log + [] == log && out + [] == out;
      r := Ok(out);
    }

    method ReadElement(typeName: string, guid: bool, path: string) returns (r: Result<GvasFormat.Value, string>)
      requires Valid()
      modifies this`pos, this`errors
      ensures Valid() && Followed(Element(old(Rest()), old(pos), typeName, guid, path), old(pos), old(errors), r)
      decreases |data| - pos, 1
    {
      hide Walk, RecordAll, Fields, ScalarElement, Take;
      RecordNothing(errors);
      if typeName != "StructProperty" {
        r := ReadScalarElement(typeName);
      } else if guid {
        r := ReadRaw(16);
      } else {
        var props := Properties(path);
        r := match props case Ok(m) => Ok(Dict(m)) case Err(e) => Err(e);
      }
    }

    method ReadSet(elementType: string, count: nat, path: string) returns (r: Result<seq<GvasFormat.Value>, string>)
      requires Valid()
      modifies this`pos, this`errors
      ensures Valid() && Followed(SetItems(old(Rest()), old(pos), elementType, 0, count, path), old(pos), old(errors), r)
      decreases |data| - pos, 2
    {
      hide Element, SetItems, RecordAll;
      var out: seq<GvasFormat.Value> := [];
      ghost var start, before, log := pos, errors, [];
      ghost var whole := SetItems(Rest(), pos, elementType, 0, count, path);
      RecordNothing(errors);
      ResumedTwice([], [], whole.result);
      for i := 0 to count
        invariant Valid() && start <= pos
        invariant whole.result == Resumed(out, pos - start, SetItems(Rest(), pos, elementType, i, count, path).result)
        invariant whole.log == log + SetItems(Rest(), pos, elementType, i, count, path).log
        invariant errors == RecordAll(before, log)
      {
        SetItemsStep(Rest(), pos, elementType, i, count, path);
        ghost var more := Element(Rest(), pos, elementType, false, Indexed(path, "", i)).log;
        var v := ReadElement(elementType, false, Indexed(path, "", i));
        RecordAllConcat(before, log, more);
        if v.Err? {
          return Err(v.error);
        }
        ghost var rest := SetItems(Rest(), pos, elementType, i + 1, count, path);
        ResumedTwice(out, [v.value], rest.result);
        assert log + (more + rest.log) == (log + more) + rest.log;
        out, log := out + [v.value], log + more;
      }
      SetItemsStep(Rest(), pos, elementType, count, count, path);
      assert log + [] == log && out + [] == out;
      r := Ok(out);
    }

    method ReadMapEntry(keyType: string, valueType: string, i: nat, path: string)
        returns (r: Result<(string, GvasFormat.Value), string>)
      requires Valid()
      modifies this`pos, this`errors
      ensures Valid() && Followed(MapEntry(old(Rest()), old(pos), keyType, valueType, i, path), old(pos), old(errors), r)
      decreases |data| - pos, 2
    {
      hide Element, RecordAll;
      ghost var before, more := errors, Element(Rest(), pos, keyType, true, Indexed(path, ".key", i)).log;
      var key := ReadElement(keyType, true, Indexed(path, ".key", i));
      if key.Err? {
        return Err(key.error);
      }
      RecordAllConcat(before, more, Element(Rest(), pos, valueType, false, Indexed(path, ".value", i)).log);
      var value := ReadElement(valueType, false, Indexed(path, ".value", i));
      r := match value case Ok(v) => Ok((KeyText(key.value), v)) case Err(e) => Err(e);
    }

    method ReadMap(keyType: string, valueType: string, count: nat, path: string)
        returns (r: Result<map<string, GvasFormat.Value>, string>)
      requires Valid()
      modifies this`pos, this`errors
      ensures Valid()
      ensures Followed(MapEntries(old(Rest()), old(pos), keyType, valueType, 0, count, path), old(pos), old(errors), r)
      decreases |data| - pos, 3
    {
      hide MapEntry, MapEntries, RecordAll;
      var out: map<string, GvasFormat.Value> := map[];
      ghost var start, before, log := pos, errors, [];
      ghost var whole := MapEntries(Rest(), pos, keyType, valueType, 0, count, path);
      RecordNothing(errors);
      assert whole.result.Got? ==> out + whole.result.value == whole.result.value;
      for i := 0 to count
        invariant Valid() && start <= pos
        invariant whole.result == Merged(out, pos - start, MapEntries(Rest(), pos, keyType, valueType, i, count, path).result)
        invariant whole.log == log + MapEntries(Rest(), pos, keyType, valueType, i, count, path).log
        invariant errors == RecordAll(before, log)
      {
        MapEntriesStep(Rest(), pos, keyType, valueType, i, count, path);
        ghost var more := MapEntry(Rest(), pos, keyType, valueType, i, path).log;
        var entry := ReadMapEntry(keyType, valueType, i, path);
        RecordAllConcat(before, log, more);
        if entry.Err? {
          return Err(entry.error);
        }
        var (key, value) := entry.value;
        ghost var rest := MapEntries(Rest(), pos, keyType, valueType, i + 1, count, path);
        MergedTwice(out, key, value, rest.result);
        assert log + (more + rest.log) == (log + more) + rest.log;
        out, log := out[key := value], log + more;
      }
      MapEntriesStep(Rest(), pos, keyType, valueType, count, count, path);
      assert log + [] == log && out + map[] == out;
      r := Ok(out);
    }

    // -------------------------------------------------------------------------------------------
    // The whole file
    // -------------------------------------------------------------------------------------------

    method ReadFileHeader() returns (r: Result<(), string>)
      requires Valid() && pos == 0
      modifies this`pos
      ensures Valid() && Moved(FileHeader(old(Rest())), 0, r)
    {
      hide HeaderRest, Take, TakeSigned;
      var magic := ReadSigned(4);
      if magic.Err? { return Err(magic.error); }
      if magic.value != 0x53415647 { return Err("no GVAS magic"); }
      var version := ReadSigned(4);
      if version.Err? { return Err(version.error); }
      if version.value != 3 { return Err("unexpected save game version " + Decimal(version.value)); }
      var packages := Read(8);
      if packages.Err? { return Err(packages.error); }
      var engine := Read(10);
      if engine.Err? { return Err(engine.error); }
      r := ReadHeaderRest();
    }

    method ReadHeaderRest() returns (r: Result<(), string>)
      requires Valid()
      modifies this`pos
      ensures Valid() && Moved(HeaderRest(old(Rest()), old(pos)), old(pos), r)
    {
      hide FString, Take, TakeSigned, TakeUnsigned;
      var branch := ReadFString();
      if branch.Err? { return Err(branch.error); }
      var custom := ReadSigned(4);
      if custom.Err? { return Err(custom.error); }
      if custom.value != 3 { return Err("unexpected custom version format"); }
      var count := ReadUnsigned(4);
      if count.Err? { return Err(count.error); }
      if count.value > 10000 { return Err("implausible custom version count " + Decimal(count.value)); }
      var versions := Read(20 * count.value);
      if versions.Err? { return Err(versions.error); }
      var class_ := ReadFString();
      r := match class_ case Ok(_) => Ok(()) case Err(e) => Err(e);
    }
  }

  /** The only error that leaves is the header's; every other failure ends up among the notes. */
  method Parse(data: seq<Byte>) returns (r: Result<(map<string, GvasFormat.Value>, seq<string>), string>)
    ensures r == ParseGvas(data)
  {
    hide FileHeader, Walk, RecordAll, Fields;
    var reader := new Reader(data);
    assert data[0..] == data;
    RecordNothing([]);
    var header := reader.ReadFileHeader();
    if header.Err? {
      return Err("GVAS header: " + header.error);
    }
    ghost var w := Walk(reader.Rest(), reader.pos, "");
    var props := reader.Properties("");
    match props {
      case Ok(m) => r := Ok((m, reader.errors));
      case Err(why) =>
        reader.RecordNote("(root)", why);
        r := Ok((map[], reader.errors));
    }
  }
}
