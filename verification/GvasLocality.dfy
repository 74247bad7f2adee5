/**
 A container's value depends on nothing but its own extent, although the reader inside it is free to
 run past the end; and a property list depends on a container's bytes only in that container's value.
 */
module GvasLocality {
  import opened Wrappers
  import opened Bytes
  import opened GvasFormat

  /** `a` and `b` both have `n` bytes and agree on them. */
  predicate Agree(a: seq<Byte>, b: seq<Byte>, n: nat) {
    n <= |a| && n <= |b| && a[..n] == b[..n]
  }

  lemma AgreePart(a: seq<Byte>, b: seq<Byte>, n: nat, k: nat, m: nat)
    requires Agree(a, b, n) && k + m <= n
    ensures Agree(a, b, k) && Agree(a[k..], b[k..], m)
  {
    assert a[..k] == a[..n][..k] && b[..k] == b[..n][..k];
    assert a[k..][..m] == a[..n][k..k + m] && b[k..][..m] == b[..n][k..k + m];
  }

  // ---------------------------------------------------------------------------------------------
  // Readers that record nothing: what they return depends on the bytes they took
  // ---------------------------------------------------------------------------------------------

  lemma FStringLocal(a: seq<Byte>, b: seq<Byte>, at: nat)
    requires FString(a, at).Got? && Agree(a, b, FString(a, at).used)
    ensures FString(b, at) == FString(a, at)
  {
    AgreePart(a, b, FString(a, at).used, 4, FString(a, at).used - 4);
  }

  lemma GuidLocal(a: seq<Byte>, b: seq<Byte>, at: nat)
    requires OptionalGuid(a, at).Got? && Agree(a, b, OptionalGuid(a, at).used)
    ensures OptionalGuid(b, at) == OptionalGuid(a, at)
  {
    AgreePart(a, b, OptionalGuid(a, at).used, 1, OptionalGuid(a, at).used - 1);
  }

  lemma ElementScalarLocal(typeName: string, a: seq<Byte>, b: seq<Byte>, at: nat)
    requires ScalarElement(typeName, a, at).Got? && Agree(a, b, ScalarElement(typeName, a, at).used)
    ensures ScalarElement(typeName, b, at) == ScalarElement(typeName, a, at)
  {
    if FString(a, at).Got? && Agree(a, b, FString(a, at).used) {
      FStringLocal(a, b, at);
    }
  }

  lemma AfterGuidLocal(typeName: string, a: seq<Byte>, b: seq<Byte>, at: nat)
    requires AfterGuid(typeName, a, at).Got? && Agree(a, b, AfterGuid(typeName, a, at).used)
    ensures AfterGuid(typeName, b, at) == AfterGuid(typeName, a, at)
  {
    if FString(a, at).Got? && Agree(a, b, FString(a, at).used) {
      FStringLocal(a, b, at);
    }
  }

  lemma EnumOrByteLocal(typeName: string, a: seq<Byte>, b: seq<Byte>, at: nat)
    requires EnumOrByte(typeName, a, at).Got? && Agree(a, b, EnumOrByte(typeName, a, at).used)
    ensures EnumOrByte(typeName, b, at) == EnumOrByte(typeName, a, at)
  {
    hide FString, OptionalGuid;
    var n := EnumOrByte(typeName, a, at).used;
    var e := FString(a, at).used;
    var g := OptionalGuid(a[e..], at + e).used;
    AgreePart(a, b, n, e, g);
    FStringLocal(a, b, at);
    GuidLocal(a[e..], b[e..], at + e);
    AgreePart(a, b, n, e + g, n - e - g);
    if FString(a[e + g..], at + e + g).Got? && FString(a[e + g..], at + e + g).used == n - e - g {
      FStringLocal(a[e + g..], b[e + g..], at + e + g);
    }
  }

  lemma ScalarLocal(typeName: string, a: seq<Byte>, b: seq<Byte>, at: nat)
    requires Scalar(typeName, a, at).Got? && Agree(a, b, Scalar(typeName, a, at).used)
    ensures Scalar(typeName, b, at) == Scalar(typeName, a, at)
  {
    hide FString, OptionalGuid, EnumOrByte, AfterGuid;
    var n := Scalar(typeName, a, at).used;
    if typeName == "BoolProperty" {
      AgreePart(a, b, n, 1, n - 1);
      GuidLocal(a[1..], b[1..], at + 1);
    } else if typeName == "EnumProperty" || typeName == "ByteProperty" {
      EnumOrByteLocal(typeName, a, b, at);
    } else {
      var g := OptionalGuid(a, at).used;
      AgreePart(a, b, n, g, n - g);
      GuidLocal(a, b, at);
      AfterGuidLocal(typeName, a[g..], b[g..], at + g);
    }
  }

  lemma HeadLocal(a: seq<Byte>, b: seq<Byte>, at: nat)
    requires ReadHead(a, at).Got? && Agree(a, b, ReadHead(a, at).used)
    ensures ReadHead(b, at) == ReadHead(a, at)
    ensures Plausible(b, at) == Plausible(a, at)
  {
    hide FString, PlausibleName, PlausibleType;
    var n := ReadHead(a, at).used;
    var x := FString(a, at);
    AgreePart(a, b, n, x.used, n - x.used);
    FStringLocal(a, b, at);
    if x.value != "None" {
      var y := FString(a[x.used..], at + x.used);
      AgreePart(a, b, n, x.used, y.used);
      FStringLocal(a[x.used..], b[x.used..], at + x.used);
      AgreePart(a, b, n, x.used + y.used, 8);
    }
  }

  lemma ContainerHeadLocal(typeName: string, a: seq<Byte>, b: seq<Byte>, at: nat)
    requires ReadContainer(typeName, a, at).Got? && Agree(a, b, ReadContainer(typeName, a, at).used)
    ensures ReadContainer(typeName, b, at) == ReadContainer(typeName, a, at)
  {
    hide FString, OptionalGuid;
    var n := ReadContainer(typeName, a, at).used;
    var x := FString(a, at);
    var y := ContainerRest(typeName, x.value, a[x.used..], at + x.used);
    AgreePart(a, b, n, x.used, y.used);
    FStringLocal(a, b, at);
    if typeName == "MapProperty" {
      FStringLocal(a[x.used..], b[x.used..], at + x.used);
    }
    AgreePart(a, b, n, x.used + y.used, n - x.used - y.used);
    GuidLocal(a[x.used + y.used..], b[x.used + y.used..], at + x.used + y.used);
  }

  lemma StructArrayHeadLocal(a: seq<Byte>, b: seq<Byte>, at: nat)
    requires StructArrayHead(a, at).Got? && Agree(a, b, StructArrayHead(a, at).used)
    ensures StructArrayHead(b, at) == StructArrayHead(a, at)
  {
    hide FString;
    var n := StructArrayHead(a, at).used;
    var x := FString(a, at).used;
    var y := x + FString(a[x..], at + x).used;
    var z := y + 8 + FString(a[y + 8..], at + y + 8).used;
    AgreePart(a, b, n, x, y - x);
    FStringLocal(a, b, at);
    FStringLocal(a[x..], b[x..], at + x);
    AgreePart(a, b, n, y, 8);
    AgreePart(a, b, n, y + 8, z - y - 8);
    FStringLocal(a[y + 8..], b[y + 8..], at + y + 8);
    AgreePart(a, b, n, z, 16);
    AgreePart(a, b, n, z + 16, 1);
  }

  lemma {:induction false} FlatItemsLocal(a: seq<Byte>, b: seq<Byte>, at: nat, elementType: string, count: nat)
    requires FlatItems(a, at, elementType, count).Got? && Agree(a, b, FlatItems(a, at, elementType, count).used)
    ensures FlatItems(b, at, elementType, count) == FlatItems(a, at, elementType, count)
    decreases count
  {
    hide ScalarElement;
    if count > 0 {
      var n := FlatItems(a, at, elementType, count).used;
      var k := FlatElement(elementType, a, at).used;
      AgreePart(a, b, n, k, n - k);
      if elementType != "Guid" {
        ElementScalarLocal(elementType, a, b, at);
      }
      FlatItemsLocal(a[k..], b[k..], at + k, elementType, count - 1);
    }
  }

  lemma {:induction false} RawFieldsLocal(names: seq<string>, width: nat, a: seq<Byte>, b: seq<Byte>, at: nat)
    requires RawFields(names, width, a, at).Got? && Agree(a, b, RawFields(names, width, a, at).used)
    ensures RawFields(names, width, b, at) == RawFields(names, width, a, at)
    decreases |names|
  {
    if names != [] {
      var k := |names| - 1;
      var used := RawFields(names[..k], width, a, at).used;
      AgreePart(a, b, used + width, used, width);
      RawFieldsLocal(names[..k], width, a, b, at);
    }
  }

  lemma FixedStructLocal(a: seq<Byte>, b: seq<Byte>, at: nat, structType: string)
    requires IsFixedStruct(structType)
    requires FixedStruct(a, at, structType).Got? && Agree(a, b, FixedStruct(a, at, structType).used)
    ensures FixedStruct(b, at, structType) == FixedStruct(a, at, structType)
  {
    hide RawFields;
    var width := if structType == "LinearColor" then 4 else 8;
    if structType != "DateTime" && structType != "Guid" {
      RawFieldsLocal(FixedFields(structType), width, a, b, at);
    }
  }

  // ---------------------------------------------------------------------------------------------
  // Values and property lists. Notes are left out: an inner reader that fails may have failed on
  // bytes beyond the extent, and its message says so. What is read does not depend on them.
  // ---------------------------------------------------------------------------------------------

  /** A list that was read to its end, and every value in it, is determined by the bytes up to that end. */
  lemma {:induction false} WalkLocal(a: seq<Byte>, b: seq<Byte>, at: nat, path: string)
    requires Walk(a, at, path).finish.Got? && Agree(a, b, Walk(a, at, path).finish.used)
    ensures Walk(b, at, path).finish == Walk(a, at, path).finish
    ensures Walk(b, at, path).items == Walk(a, at, path).items
    decreases |a| + |b|, 0
  {
    hide Walk, Property, ReadHead, Extent, Plausible;
    var n := Walk(a, at, path).finish.used;
    if ReadHead(a, at).Got? && ReadHead(a, at).value.Head? {
      WalkContinues(a, at, path);
      var Got(Head(name, typeName, size), h) := ReadHead(a, at);
      var (o, _) := Property(a[h..], at + h, typeName, size, Join(path, name));
      var next := h + o.used;
      var rest := Walk(a[next..], at + next, path);
      AgreePart(a, b, n, h, o.used);
      HeadLocal(a, b, at);
      AgreePart(a, b, n, next, n - next);
      WalkLocal(a[next..], b[next..], at + next, path);
      WalkHeadWithin(a[next..], at + next, path);
      AgreePart(a[next..], b[next..], n - next, ReadHead(a[next..], at + next).used, 0);
      HeadLocal(a[next..], b[next..], at + next);
      assert a[h..][o.used..] == a[next..] && b[h..][o.used..] == b[next..];
      PropertyLocal(a[h..], b[h..], at + h, typeName, size, Join(path, name));
      WalkContinues(b, at, path);
    } else {
      WalkStops(a, at, path);
      HeadLocal(a, b, at);
      WalkStops(b, at, path);
    }
  }

  /** A list that was read to its end begins with a head that was read. */
  lemma WalkHeadWithin(r: seq<Byte>, at: nat, path: string)
    requires Walk(r, at, path).finish.Got?
    ensures ReadHead(r, at).Got? && ReadHead(r, at).used <= Walk(r, at, path).finish.used
  {
    hide Walk, Property, ReadHead, Extent;
    if ReadHead(r, at).Got? && ReadHead(r, at).value.Head? {
      WalkContinues(r, at, path);
    } else {
      WalkStops(r, at, path);
    }
  }

  lemma ScalarIsNoContainer(typeName: string)
    ensures !(IsScalar(typeName) && IsContainer(typeName))
  {
  }

  /** The outcome of a property is determined by its bytes, and for an unknown type by whether the list looks plausible after it. */
  lemma {:induction false} PropertyLocal(a: seq<Byte>, b: seq<Byte>, at: nat, typeName: string, size: nat, path: string)
    requires !Property(a, at, typeName, size, path).0.Broken? && Agree(a, b, Property(a, at, typeName, size, path).0.used)
    requires var n := Property(a, at, typeName, size, path).0.used; Plausible(a[n..], at + n) == Plausible(b[n..], at + n)
    ensures Property(b, at, typeName, size, path).0 == Property(a, at, typeName, size, path).0
    ensures Extent(typeName, size, b, at) == Extent(typeName, size, a, at)
    decreases |a| + |b|, 5
  {
    hide Scalar, ReadContainer, ContainerValue, OptionalGuid, Plausible, IsScalar, IsContainer;
    var n := Property(a, at, typeName, size, path).0.used;
    if IsScalar(typeName) {
      ScalarIsNoContainer(typeName);
      ScalarLocal(typeName, a, b, at);
    } else if IsContainer(typeName) {
      var k := ReadContainer(typeName, a, at).used;
      AgreePart(a, b, n, k, size);
      ContainerHeadLocal(typeName, a, b, at);
      ContainedLocal(a[k..], b[k..], at + k, ReadContainer(typeName, a, at).value, size, path);
    } else {
      var g := OptionalGuid(a, at).used;
      AgreePart(a, b, n, g, size);
      GuidLocal(a, b, at);
    }
  }

  /**
   Container locality: whether the value of a container is kept, and which value it is, depends only
   on the `size` bytes of its extent, whatever follows them and however far the inner reader ran.
   */
  lemma {:induction false} ContainedLocal(a: seq<Byte>, b: seq<Byte>, at: nat, container: Container, size: nat, path: string)
    requires Agree(a, b, size)
    ensures Contain(ContainerValue(a, at, container, size, path), size, at, path).0
            == Contain(ContainerValue(b, at, container, size, path), size, at, path).0
    decreases |a| + |b|, 4
  {
    hide ContainerValue;
    var x, y := ContainerValue(a, at, container, size, path).result, ContainerValue(b, at, container, size, path).result;
    if x.Got? && x.used == size {
      ContainerValueLocal(a, b, at, container, size, path);
    } else if y.Got? && y.used == size {
      ContainerValueLocal(b, a, at, container, size, path);
    }
  }

  lemma {:induction false} ContainerValueLocal(a: seq<Byte>, b: seq<Byte>, at: nat, container: Container, size: nat, path: string)
    requires var x := ContainerValue(a, at, container, size, path).result; x.Got? && Agree(a, b, x.used)
    ensures ContainerValue(b, at, container, size, path).result == ContainerValue(a, at, container, size, path).result
    decreases |a| + |b|, 3
  {
    hide StructValue, ArrayValue, MapEntries, SetItems;
    var n := ContainerValue(a, at, container, size, path).result.used;
    if container.StructOf? {
      StructLocal(a, b, at, container.structType, path);
    } else if container.ArrayOf? {
      ArrayLocal(a, b, at, container.elementType, size, path);
    } else {
      AgreePart(a, b, n, 4, 4);
      AgreePart(a, b, n, 8, n - 8);
      var count := TakeUnsigned(a[4..], at + 4, 4).value;
      if container.MapOf? {
        MapEntriesLocal(a[8..], b[8..], at + 8, container.keyType, container.valueType, 0, count, path);
      } else {
        SetItemsLocal(a[8..], b[8..], at + 8, container.elementType, 0, count, path);
      }
    }
  }

  lemma {:induction false} StructLocal(a: seq<Byte>, b: seq<Byte>, at: nat, structType: string, path: string)
    requires var x := StructValue(a, at, structType, path).result; x.Got? && Agree(a, b, x.used)
    ensures StructValue(b, at, structType, path).result == StructValue(a, at, structType, path).result
    decreases |a| + |b|, 1
  {
    hide Walk, FixedStruct, Fields;
    if IsFixedStruct(structType) {
      FixedStructLocal(a, b, at, structType);
    } else {
      WalkLocal(a, b, at, path);
    }
  }

  lemma {:induction false} ElementLocal(a: seq<Byte>, b: seq<Byte>, at: nat, typeName: string, guid: bool, path: string)
    requires var x := Element(a, at, typeName, guid, path).result; x.Got? && Agree(a, b, x.used)
    ensures Element(b, at, typeName, guid, path).result == Element(a, at, typeName, guid, path).result
    decreases |a| + |b|, 1
  {
    hide Walk, ScalarElement, Fields;
    if typeName != "StructProperty" {
      ElementScalarLocal(typeName, a, b, at);
    } else if !guid {
      WalkLocal(a, b, at, path);
    }
  }

  lemma {:induction false} ArrayLocal(a: seq<Byte>, b: seq<Byte>, at: nat, elementType: string, size: nat, path: string)
    requires var x := ArrayValue(a, at, elementType, size, path).result; x.Got? && Agree(a, b, x.used)
    ensures ArrayValue(b, at, elementType, size, path).result == ArrayValue(a, at, elementType, size, path).result
    decreases |a| + |b|, 2
  {
    hide StructArrayHead, StructItems, FlatItems;
    var n := ArrayValue(a, at, elementType, size, path).result.used;
    AgreePart(a, b, n, 4, n - 4);
    var count := TakeUnsigned(a, at, 4).value;
    if elementType == "StructProperty" {
      var head := StructArrayHead(a[4..], at + 4);
      AgreePart(a[4..], b[4..], n - 4, head.used, n - 4 - head.used);
      StructArrayHeadLocal(a[4..], b[4..], at + 4);
      assert a[4..][head.used..] == a[4 + head.used..] && b[4..][head.used..] == b[4 + head.used..];
      StructItemsLocal(a[4 + head.used..], b[4 + head.used..], at + 4 + head.used, head.value.1, 0, count, path + "." + head.value.0);
    } else if elementType != "ByteProperty" {
      FlatItemsLocal(a[4..], b[4..], at + 4, elementType, count);
    }
  }

  lemma {:induction false} StructItemsLocal(a: seq<Byte>, b: seq<Byte>, at: nat, structType: string, i: nat, count: nat, path: string)
    requires i <= count
    requires var x := StructItems(a, at, structType, i, count, path).result; x.Got? && Agree(a, b, x.used)
    ensures StructItems(b, at, structType, i, count, path).result == StructItems(a, at, structType, i, count, path).result
    decreases |a| + |b|, 2
  {
    hide StructItems, StructValue;
    StructItemsStep(a, at, structType, i, count, path);
    StructItemsStep(b, at, structType, i, count, path);
    if i < count {
      var n := StructItems(a, at, structType, i, count, path).result.used;
      var k := StructValue(a, at, structType, Indexed(path, "", i)).result.used;
      AgreePart(a, b, n, k, n - k);
      StructLocal(a, b, at, structType, Indexed(path, "", i));
      StructItemsLocal(a[k..], b[k..], at + k, structType, i + 1, count, path);
    }
  }

  lemma {:induction false} SetItemsLocal(a: seq<Byte>, b: seq<Byte>, at: nat, elementType: string, i: nat, count: nat, path: string)
    requires i <= count
    requires var x := SetItems(a, at, elementType, i, count, path).result; x.Got? && Agree(a, b, x.used)
    ensures SetItems(b, at, elementType, i, count, path).result == SetItems(a, at, elementType, i, count, path).result
    decreases |a| + |b|, 2
  {
    hide SetItems, Element;
    SetItemsStep(a, at, elementType, i, count, path);
    SetItemsStep(b, at, elementType, i, count, path);
    if i < count {
      var n := SetItems(a, at, elementType, i, count, path).result.used;
      var k := Element(a, at, elementType, false, Indexed(path, "", i)).result.used;
      AgreePart(a, b, n, k, n - k);
      ElementLocal(a, b, at, elementType, false, Indexed(path, "", i));
      SetItemsLocal(a[k..], b[k..], at + k, elementType, i + 1, count, path);
    }
  }

  lemma {:induction false} MapEntryLocal(a: seq<Byte>, b: seq<Byte>, at: nat, keyType: string, valueType: string, i: nat, path: string)
    requires var x := MapEntry(a, at, keyType, valueType, i, path).result; x.Got? && Agree(a, b, x.used)
    ensures MapEntry(b, at, keyType, valueType, i, path).result == MapEntry(a, at, keyType, valueType, i, path).result
    decreases |a| + |b|, 2
  {
    hide Element, KeyText;
    var n := MapEntry(a, at, keyType, valueType, i, path).result.used;
    var k := Element(a, at, keyType, true, Indexed(path, ".key", i)).result.used;
    AgreePart(a, b, n, k, n - k);
    ElementLocal(a, b, at, keyType, true, Indexed(path, ".key", i));
    ElementLocal(a[k..], b[k..], at + k, valueType, false, Indexed(path, ".value", i));
  }

  lemma {:induction false} MapEntriesLocal(a: seq<Byte>, b: seq<Byte>, at: nat, keyType: string, valueType: string, i: nat, count: nat, path: string)
    requires i <= count
    requires var x := MapEntries(a, at, keyType, valueType, i, count, path).result; x.Got? && Agree(a, b, x.used)
    ensures MapEntries(b, at, keyType, valueType, i, count, path).result == MapEntries(a, at, keyType, valueType, i, count, path).result
    decreases |a| + |b|, 3
  {
    hide MapEntries, MapEntry;
    MapEntriesStep(a, at, keyType, valueType, i, count, path);
    MapEntriesStep(b, at, keyType, valueType, i, count, path);
    if i < count {
      var n := MapEntries(a, at, keyType, valueType, i, count, path).result.used;
      var k := MapEntry(a, at, keyType, valueType, i, path).result.used;
      AgreePart(a, b, n, k, n - k);
      MapEntryLocal(a, b, at, keyType, valueType, i, path);
      MapEntriesLocal(a[k..], b[k..], at + k, keyType, valueType, i + 1, count, path);
    }
  }

  // ---------------------------------------------------------------------------------------------
  // Isolation
  // ---------------------------------------------------------------------------------------------

  /** A container's extent lies after the head of the list it is in, and within the file. */
  lemma {:induction false} ExtentInside(r: seq<Byte>, at: nat, path: string, i: nat)
    requires i < |Walk(r, at, path).items| && Walk(r, at, path).items[i].extent.Some?
    ensures ReadHead(r, at).Got? && ReadHead(r, at).value.Head?
    ensures var (s, e) := Walk(r, at, path).items[i].extent.value; at + ReadHead(r, at).used <= s <= e <= at + |r|
    decreases i
  {
    hide Walk, Property, ReadHead, Extent;
    if ReadHead(r, at).Got? && ReadHead(r, at).value.Head? {
      WalkContinues(r, at, path);
      var Got(Head(name, typeName, size), h) := ReadHead(r, at);
      var (o, _) := Property(r[h..], at + h, typeName, size, Join(path, name));
      if i == 0 {
        ContainerInside(r[h..], at + h, typeName, size, Join(path, name));
      } else {
        ExtentInside(r[h + o.used..], at + h + o.used, path, i - 1);
      }
    } else {
      WalkStops(r, at, path);
    }
  }

  lemma ContainerInside(r: seq<Byte>, at: nat, typeName: string, size: nat, path: string)
    requires !Property(r, at, typeName, size, path).0.Broken? && Extent(typeName, size, r, at).Some?
    ensures IsContainer(typeName) && !IsScalar(typeName) && ReadContainer(typeName, r, at).Got?
    ensures var k := ReadContainer(typeName, r, at).used;
            && Extent(typeName, size, r, at) == Some((at + k, at + k + size))
            && k + size <= |r|
            && Property(r, at, typeName, size, path).0.used == k + size
            && Property(r, at, typeName, size, path).0 ==
               match Contain(ContainerValue(r[k..], at + k, ReadContainer(typeName, r, at).value, size, path), size, at + k, path).0
               case Kept(v, _) => Kept(v, k + size)
               case _ => Skipped(k + size)
  {
    hide ReadContainer, ContainerValue, Scalar;
  }

  /** The two lists differ at most in the value of item `i`. */
  predicate SameBut(w: Walked, w': Walked, i: nat) {
    && |w'.items| == |w.items| && w'.finish == w.finish
    && (forall j | 0 <= j < |w.items| :: j != i ==> w'.items[j] == w.items[j])
    && (i < |w.items| ==> w'.items[i].name == w.items[i].name && w'.items[i].extent == w.items[i].extent)
  }

  /** `b` is `a` with the bytes from position `s` up to `e` replaced by any others; `at` is where both begin. */
  predicate Replaced(a: seq<Byte>, b: seq<Byte>, at: nat, s: nat, e: nat) {
    at <= s <= e <= at + |a| && |b| == |a| && a[..s - at] == b[..s - at] && a[e - at..] == b[e - at..]
  }

  lemma ReplacedLater(a: seq<Byte>, b: seq<Byte>, at: nat, s: nat, e: nat, k: nat)
    requires Replaced(a, b, at, s, e) && at + k <= s
    ensures Agree(a, b, k) && Replaced(a[k..], b[k..], at + k, s, e)
  {
    AgreePart(a, b, s - at, k, s - at - k);
    assert a[k..][e - at - k..] == a[e - at..] && b[k..][e - at - k..] == b[e - at..];
  }

  lemma FirstIsolated(a: seq<Byte>, b: seq<Byte>, at: nat, path: string, s: nat, e: nat)
    requires 0 < |Walk(a, at, path).items| && Walk(a, at, path).items[0].extent == Some((s, e))
    requires Replaced(a, b, at, s, e)
    ensures SameBut(Walk(a, at, path), Walk(b, at, path), 0)
  {
    hide Walk, Property, ReadHead, Extent, Plausible, ReadContainer, ContainerValue;
    ExtentInside(a, at, path, 0);
    WalkContinues(a, at, path);
    var Got(Head(name, typeName, size), h) := ReadHead(a, at);
    ReplacedLater(a, b, at, s, e, h);
    HeadLocal(a, b, at);
    WalkContinues(b, at, path);
    ContainerInside(a[h..], at + h, typeName, size, Join(path, name));
    var k := ReadContainer(typeName, a[h..], at + h).used;
    ReplacedLater(a[h..], b[h..], at + h, s, e, k);
    ContainerHeadLocal(typeName, a[h..], b[h..], at + h);
    ReplacedProperty(b[h..], at + h, typeName, size, Join(path, name));
    assert a[h + (k + size)..] == a[e - at..] && b[h + (k + size)..] == b[e - at..];
  }

  /** Where the first property of a list ends, if there is one and it does not break the list. */
  function FirstEnd(r: seq<Byte>, at: nat, path: string): (n: Option<nat>)
    ensures n.Some? ==> n.value <= |r|
  {
    match ReadHead(r, at)
    case Got(Head(name, typeName, size), h) =>
      var o := Property(r[h..], at + h, typeName, size, Join(path, name)).0;
      if o.Broken? then None else Some(h + o.used)
    case _ => None
  }

  /** A property head begins `next` bytes on and ends by position `s`. */
  predicate HeadBy(r: seq<Byte>, at: nat, next: nat, s: nat) {
    next <= |r| && ReadHead(r[next..], at + next).Got? && at + next + ReadHead(r[next..], at + next).used <= s
  }

  /** The first property of a list, when item `i` is a later one: it ends before that one's head begins. */
  lemma EarlierEnds(a: seq<Byte>, at: nat, path: string, i: nat, s: nat, e: nat)
    requires 0 < i < |Walk(a, at, path).items| && Walk(a, at, path).items[i].extent == Some((s, e))
    ensures FirstEnd(a, at, path).Some? && HeadBy(a, at, FirstEnd(a, at, path).value, s)
  {
    hide Walk, Property, ReadHead, Extent;
    ExtentInside(a, at, path, i);
    WalkContinues(a, at, path);
    ExtentInside(a[FirstEnd(a, at, path).value..], at + FirstEnd(a, at, path).value, path, i - 1);
  }

  /** Bytes replaced behind the head after a property do not change it. */
  lemma EarlierUnchanged(a: seq<Byte>, b: seq<Byte>, at: nat, typeName: string, size: nat, path: string, s: nat, e: nat)
    requires Replaced(a, b, at, s, e)
    requires var o := Property(a, at, typeName, size, path).0; !o.Broken? && HeadBy(a, at, o.used, s)
    ensures var o := Property(a, at, typeName, size, path).0;
            && Property(b, at, typeName, size, path).0 == o
            && Extent(typeName, size, b, at) == Extent(typeName, size, a, at)
            && Replaced(a[o.used..], b[o.used..], at + o.used, s, e)
  {
    hide Property, ReadHead, Extent, Plausible;
    var n := Property(a, at, typeName, size, path).0.used;
    ReplacedLater(a, b, at, s, e, n);
    ReplacedLater(a[n..], b[n..], at + n, s, e, ReadHead(a[n..], at + n).used);
    HeadLocal(a[n..], b[n..], at + n);
    PropertyLocal(a, b, at, typeName, size, path);
  }

  /**
   Isolation: replacing the bytes of one container's extent by any others, well formed or not, leaves
   every other property of the list, its end and its fate as they were.
   */
  lemma {:induction false} ContainerIsolated(a: seq<Byte>, b: seq<Byte>, at: nat, path: string, i: nat, s: nat, e: nat)
    requires i < |Walk(a, at, path).items| && Walk(a, at, path).items[i].extent == Some((s, e))
    requires Replaced(a, b, at, s, e)
    ensures SameBut(Walk(a, at, path), Walk(b, at, path), i)
    decreases i
  {
    hide Walk, Property, ReadHead, Extent, Replaced;
    if i == 0 {
      FirstIsolated(a, b, at, path, s, e);
    } else {
      ExtentInside(a, at, path, i);
      EarlierEnds(a, at, path, i, s, e);
      var Got(Head(name, typeName, size), h) := ReadHead(a, at);
      var next := FirstEnd(a, at, path).value;
      HeadReplaced(a, b, at, s, e);
      assert a[h..][next - h..] == a[next..] && b[h..][next - h..] == b[next..];
      EarlierUnchanged(a[h..], b[h..], at + h, typeName, size, Join(path, name), s, e);
      WalkContinues(a, at, path);
      WalkContinues(b, at, path);
      ContainerIsolated(a[next..], b[next..], at + next, path, i - 1, s, e);
    }
  }

  lemma HeadReplaced(a: seq<Byte>, b: seq<Byte>, at: nat, s: nat, e: nat)
    requires Replaced(a, b, at, s, e) && ReadHead(a, at).Got? && at + ReadHead(a, at).used <= s
    ensures ReadHead(b, at) == ReadHead(a, at)
    ensures |b| == |a| && Replaced(a[ReadHead(a, at).used..], b[ReadHead(a, at).used..], at + ReadHead(a, at).used, s, e)
  {
    hide ReadHead, Plausible;
    ReplacedLater(a, b, at, s, e, ReadHead(a, at).used);
    HeadLocal(a, b, at);
  }

  /** A container whose extent fits the file never breaks its list and always ends at its extent. */
  lemma ReplacedProperty(r: seq<Byte>, at: nat, typeName: string, size: nat, path: string)
    requires IsContainer(typeName) && ReadContainer(typeName, r, at).Got? && ReadContainer(typeName, r, at).used + size <= |r|
    ensures !Property(r, at, typeName, size, path).0.Broken?
    ensures Property(r, at, typeName, size, path).0.used == ReadContainer(typeName, r, at).used + size
    ensures Extent(typeName, size, r, at) == Some((at + ReadContainer(typeName, r, at).used, at + ReadContainer(typeName, r, at).used + size))
  {
    hide ReadContainer, ContainerValue, Scalar;
  }

  /** Each property that does not break its list leaves the cursor past where it began, by at least a head. */
  lemma PropertyAdvances(r: seq<Byte>, at: nat, path: string)
    requires ReadHead(r, at).Got? && ReadHead(r, at).value.Head?
    ensures var Got(Head(name, typeName, size), h) := ReadHead(r, at);
            var outcome := Property(r[h..], at + h, typeName, size, Join(path, name)).0;
            !outcome.Broken? ==> 16 <= h < h + outcome.used <= |r|
  {
    hide ReadHead, Property, Join;
    var Got(Head(name, typeName, size), h) := ReadHead(r, at);
    HeadTakes(r, at);
    OutcomeTakes(r[h..], at + h, typeName, size, Join(path, name));
  }

  lemma HeadTakes(r: seq<Byte>, at: nat)
    requires ReadHead(r, at).Got? && ReadHead(r, at).value.Head?
    ensures 16 <= ReadHead(r, at).used <= |r|
  {
    hide FString, TakeUnsigned;
  }

  lemma OutcomeTakes(r: seq<Byte>, at: nat, typeName: string, size: nat, path: string)
    ensures var outcome := Property(r, at, typeName, size, path).0; !outcome.Broken? ==> 0 < outcome.used <= |r|
  {
    hide Scalar, ReadContainer, ContainerValue, SkipUnknown, IsScalar, IsContainer;
    if IsScalar(typeName) {
      ScalarTakes(typeName, r, at);
    }
  }

  lemma ScalarTakes(typeName: string, r: seq<Byte>, at: nat)
    ensures Scalar(typeName, r, at).Got? ==> 0 < Scalar(typeName, r, at).used <= |r|
  {
    hide FString, OptionalGuid, AfterGuid;
  }

  /** Every property takes at least sixteen bytes, so the cursor only ever goes forward along a list. */
  lemma {:induction false} ItemsAdvance(r: seq<Byte>, at: nat, path: string)
    ensures 16 * |Walk(r, at, path).items| <= |r|
    decreases |r|
  {
    hide Walk, Property, ReadHead, Extent;
    if ReadHead(r, at).Got? && ReadHead(r, at).value.Head? {
      WalkContinues(r, at, path);
      var Got(Head(name, typeName, size), h) := ReadHead(r, at);
      var (o, _) := Property(r[h..], at + h, typeName, size, Join(path, name));
      if !o.Broken? {
        ItemsAdvance(r[h + o.used..], at + h + o.used, path);
      }
    } else {
      WalkStops(r, at, path);
    }
  }
}
