/** The test suite's fixtures as a concrete library and JSON visitors, and
    the expected outcomes of the suite's scenarios derived from the model.
    `RoleEnum` holds `user`, `employee`, `admin`; `RolesEnum` is its
    bitmask multi-enum (admin 1, employee 2, user 4); `FooEnum` is a
    multi-enum with no single-enum class; `stdClass` is not an enum. Class
    names are written without their namespace. */
module Fixtures {
  import opened Wrappers
  import opened EnumValueType
  import opened TypeDescriptor
  import opened Collaborators
  import opened Errors
  import opened Paths
  import opened EnumSerializerHandler
  import opened RoundTrip
  import opened HandlerProperties

  const UserClass: ClassName := "User"
  const RoleEnum: ClassName := "RoleEnum"
  const RolesEnum: ClassName := "RolesEnum"
  const FooEnum: ClassName := "FooEnum"
  const StdClass: ClassName := "stdClass"

  const UserRole := EnumObject(RoleEnum, StringValue("user"))
  const EmployeeRole := EnumObject(RoleEnum, StringValue("employee"))
  const AdminRole := EnumObject(RoleEnum, StringValue("admin"))

  function Roles(mask: int): EnumObject {
    EnumObject(RolesEnum, IntValue(mask))
  }

  /** The single roles of a mask, in `RoleEnum`'s declaration order. */
  function Decompose(e: EnumObject): seq<EnumObject> {
    if e.enumClass == RolesEnum && e.value.IntValue? then
      var m := e.value.i;
      (if (m / 4) % 2 == 1 then [UserRole] else [])
      + (if (m / 2) % 2 == 1 then [EmployeeRole] else [])
      + (if m % 2 == 1 then [AdminRole] else [])
    else []
  }

  function Compose(enumClass: ClassName, roles: seq<EnumObject>): EnumObject {
    EnumObject(enumClass, IntValue(
      (if AdminRole in roles then 1 else 0)
      + (if EmployeeRole in roles then 2 else 0)
      + (if UserRole in roles then 4 else 0)))
  }

  function Lookup(enumClass: ClassName, value: Data): Option<EnumObject> {
    if enumClass == RoleEnum && value.Atom? && value.scalar in {StringValue("user"), StringValue("employee"), StringValue("admin")} then
      Some(EnumObject(RoleEnum, value.scalar))
    else if enumClass == RolesEnum && value.Atom? && value.scalar.IntValue? && 0 <= value.scalar.i < 8 then
      Some(Roles(value.scalar.i))
    else None
  }

  const Library := EnumLibrary(
    c => c in {RoleEnum, RolesEnum, FooEnum},
    c => c in {RolesEnum, FooEnum},
    c => if c == RolesEnum then Some(RoleEnum) else None,
    Lookup,
    Decompose,
    Compose)

  /** The JSON serialization visitor: scalars as themselves, arrays of enums
      as the array of their scalars. */
  const JsonOut := SerializationVisitor(
    ScalarVisitor((s, ty) => Atom(s), (s, ty) => Atom(s), (s, ty) => Atom(s), (s, ty) => Atom(s)),
    (es: seq<EnumObject>, ty) => List(seq(|es|, i requires 0 <= i < |es| => Atom(es[i].value))))

  /** A JSON deserialization visitor that leaves values unchanged. The
      host's visitor casts the value to the override's kind; the identity is
      enough here because every JSON scenario's value already has the kind
      its override names, or has no override. */
  const JsonIn: DeserializationVisitor := ScalarVisitor((d, ty) => d, (d, ty) => d, (d, ty) => d, (d, ty) => d)

  /** The XML deserialization visitor, as far as the scenarios need it: the
      string operation reads an element's text; the other operations leave
      the value unchanged. */
  const XmlIn: DeserializationVisitor := ScalarVisitor(
    (d, ty) => d,
    (d: Data, ty) => if d.XmlNode? then Atom(StringValue(d.text)) else d,
    (d, ty) => d,
    (d, ty) => d)

  /** A parameter carrying only a name. */
  function Param(name: string): TypeNode {
    TypeNode(Some(name), [])
  }

  /** The metadata stack while a top-level `User` property is visited. */
  function TopLevel(name: string, serialized: string): seq<Frame> {
    [PropertyFrame(UserClass, name, Some(serialized)), OtherFrame]
  }

  /** The metadata stack while a property of `User::$embeddedObject` is visited. */
  function Embedded(name: string, serialized: string): seq<Frame> {
    [PropertyFrame(UserClass, name, Some(serialized)), OtherFrame,
     PropertyFrame(UserClass, "embeddedObject", Some("embedded_object")), OtherFrame]
  }

  lemma TopLevelSegments(name: string, serialized: string)
    ensures Segments(TopLevel(name, serialized), PropertyStyle) == ["$" + name]
    ensures Segments(TopLevel(name, serialized), FieldStyle) == [serialized]
    ensures OutermostClass(TopLevel(name, serialized)) == Some(UserClass)
  {
    var frames := TopLevel(name, serialized);
    var rest: seq<Frame> := [OtherFrame];
    assert frames[1..] == rest;
    assert rest[1..] == [];
    assert Segments(rest, PropertyStyle) == Segments(rest[1..], PropertyStyle) + [];
    assert Segments(rest, FieldStyle) == Segments(rest[1..], FieldStyle) + [];
    assert OutermostClass(rest) == None;
  }

  lemma EmbeddedSegments(name: string, serialized: string)
    ensures Segments(Embedded(name, serialized), PropertyStyle) == ["$embeddedObject", "$" + name]
    ensures Segments(Embedded(name, serialized), FieldStyle) == ["embedded_object", serialized]
    ensures OutermostClass(Embedded(name, serialized)) == Some(UserClass)
  {
    var frames := Embedded(name, serialized);
    var outer := [PropertyFrame(UserClass, "embeddedObject", Some("embedded_object")), OtherFrame];
    assert frames[1..][1..] == outer;
    TopLevelSegments("embeddedObject", "embedded_object");
    assert outer == TopLevel("embeddedObject", "embedded_object");
    assert frames[1..][1..] == outer;
    assert Segments(frames[1..], PropertyStyle) == Segments(outer, PropertyStyle) + [];
    assert "$" + "embeddedObject" == "$embeddedObject";
    assert Segments(frames[1..], PropertyStyle) == ["$embeddedObject"];
    assert Segments(frames, PropertyStyle) == ["$embeddedObject"] + ["$" + name];
    assert Segments(frames[1..], FieldStyle) == Segments(outer, FieldStyle);
    assert OutermostClass(frames[1..]) == OutermostClass(outer);
  }

  /** A property typed plain `enum` serializes the role as `"admin"` and
      cannot be deserialized. */
  lemma MissingEnumNameScenario()
    ensures SerializeEnum(Library, JsonOut, AdminRole, TypeNode(Some(EnumTypeName), []), TopLevel("missingEnumName", "missing_enum_name"))
      == Success(Atom(StringValue("admin")))
    ensures DeserializeEnum(Library, JsonIn, Atom(StringValue("admin")), TypeNode(Some(EnumTypeName), []), TopLevel("missingEnumName", "missing_enum_name"))
      == Failure(MissingEnumName)
  {
  }

  /** `enum<stdClass>` fails with the class name `stdClass`. */
  lemma InvalidEnumClassScenario()
    ensures DeserializeEnum(Library, JsonIn, Atom(StringValue("admin")), TypeNode(Some(EnumTypeName), [Param(StdClass)]), TopLevel("invalidEnumClass", "invalid_enum_class"))
      == Failure(NotEnum(StdClass))
  {
  }

  /** The paths of a top-level `User` property. */
  lemma TopLevelPaths(frames: seq<Frame>, name: string, serialized: string)
    requires frames == TopLevel(name, serialized)
    requires !(|name| > 0 && name[|name| - 1] == ':') && EndsClear(serialized, '.')
    ensures PropertyPath(frames) == UserClass + PropertySeparator + ("$" + name)
    ensures FieldPath(frames) == serialized
  {
    TopLevelSegments(name, serialized);
    PropertyPathShape(frames);
    FieldPathShape(frames);
    assert [UserClass, "$" + name][1..] == ["$" + name];
  }

  /** The paths of a property of `User::$embeddedObject`. */
  lemma EmbeddedPaths(frames: seq<Frame>, name: string, serialized: string)
    requires frames == Embedded(name, serialized)
    requires !(|name| > 0 && name[|name| - 1] == ':') && EndsClear(serialized, '.')
    ensures PropertyPath(frames)
      == UserClass + PropertySeparator + "$embeddedObject" + PropertySeparator + ("$" + name)
    ensures FieldPath(frames) == "embedded_object" + FieldSeparator + serialized
  {
    EmbeddedSegments(name, serialized);
    PropertyPathShape(frames);
    FieldPathShape(frames);
    var all := [UserClass, "$embeddedObject", "$" + name];
    assert all[1..] == ["$embeddedObject", "$" + name];
    assert all[1..][1..] == ["$" + name];
    assert Join(all[1..][1..], PropertySeparator) == "$" + name;
    assert Join(all[1..], PropertySeparator) == "$embeddedObject" + PropertySeparator + ("$" + name);
    assert ["embedded_object", serialized][1..] == [serialized];
  }

  /** A single role in a top-level property mapped to `RolesEnum` fails
      with the property path `User::$<name>`. */
  lemma ClassMismatchScenario(frames: seq<Frame>, name: string, serialized: string)
    requires frames == TopLevel(name, serialized)
    requires !(|name| > 0 && name[|name| - 1] == ':') && EndsClear(serialized, '.')
    ensures SerializeEnum(Library, JsonOut, AdminRole, TypeNode(Some(EnumTypeName), [Param(RolesEnum)]), frames)
      == Failure(SerializationInvalidValue(UserClass + PropertySeparator + ("$" + name), MappedClassMismatch(RolesEnum, RoleEnum)))
  {
    var ty := TypeNode(Some(EnumTypeName), [Param(RolesEnum)]);
    assert EnumClassName(ty) == RolesEnum && Library.isEnum(RolesEnum);
    TopLevelPaths(frames, name, serialized);
    ClassMismatch(Library, JsonOut, AdminRole, ty, frames);
  }

  /** The same mismatch inside `User::$embeddedObject` carries the nested
      property path. */
  lemma EmbeddedClassMismatchScenario(frames: seq<Frame>, name: string, serialized: string)
    requires frames == Embedded(name, serialized)
    requires !(|name| > 0 && name[|name| - 1] == ':') && EndsClear(serialized, '.')
    ensures SerializeEnum(Library, JsonOut, AdminRole, TypeNode(Some(EnumTypeName), [Param(RolesEnum)]), frames)
      == Failure(SerializationInvalidValue(UserClass + PropertySeparator + "$embeddedObject" + PropertySeparator + ("$" + name), MappedClassMismatch(RolesEnum, RoleEnum)))
  {
    var ty := TypeNode(Some(EnumTypeName), [Param(RolesEnum)]);
    assert EnumClassName(ty) == RolesEnum && Library.isEnum(RolesEnum);
    EmbeddedPaths(frames, name, serialized);
    ClassMismatch(Library, JsonOut, AdminRole, ty, frames);
  }

  /** `"foo"` is not a role: inside `User::$embeddedObject` the error
      carries the dotted path of serialized names. */
  lemma InvalidValueScenario(frames: seq<Frame>, name: string, serialized: string)
    requires frames == Embedded(name, serialized)
    requires !(|name| > 0 && name[|name| - 1] == ':') && EndsClear(serialized, '.')
    ensures DeserializeEnum(Library, JsonIn, Atom(StringValue("foo")), TypeNode(Some(EnumTypeName), [Param(RoleEnum)]), frames)
      == Failure(DeserializationInvalidValue("embedded_object" + FieldSeparator + serialized, InvalidEnumValue(Atom(StringValue("foo")), RoleEnum)))
  {
    var ty := TypeNode(Some(EnumTypeName), [Param(RoleEnum)]);
    assert EnumClassName(ty) == RoleEnum && Library.isEnum(RoleEnum) && !HasAsSingleParameter(ty);
    assert FindDeserializationType(ty).None? by {
      assert !IsTagParameter(ty.params[0]);
    }
    EmbeddedPaths(frames, name, serialized);
    DeserializePlain(Library, JsonIn, Atom(StringValue("foo")), ty, frames);
  }

  /** The descriptor `enum<RolesEnum, as_single>`. */
  function RolesAsSingle(): (ty: TypeNode)
    ensures HasEnumClassParameter(ty) && EnumClassName(ty) == RolesEnum
    ensures HasAsSingleParameter(ty) && FindDeserializationType(ty).None?
  {
    var ty := TypeNode(Some(EnumTypeName), [Param(RolesEnum), Param(AsSingle)]);
    assert ty.params[1].name == Some(AsSingle);
    assert !IsTagParameter(ty.params[0]) && !IsTagParameter(ty.params[1]);
    ty
  }

  /** The descriptor `enum<RoleEnum, as_single>`. */
  function RoleAsSingle(): (ty: TypeNode)
    ensures HasEnumClassParameter(ty) && EnumClassName(ty) == RoleEnum && HasAsSingleParameter(ty)
  {
    var ty := TypeNode(Some(EnumTypeName), [Param(RoleEnum), Param(AsSingle)]);
    assert ty.params[1].name == Some(AsSingle);
    ty
  }

  /** The descriptor `enum<FooEnum, as_single>`. */
  function FooAsSingle(): (ty: TypeNode)
    ensures HasEnumClassParameter(ty) && EnumClassName(ty) == FooEnum && HasAsSingleParameter(ty)
  {
    var ty := TypeNode(Some(EnumTypeName), [Param(FooEnum), Param(AsSingle)]);
    assert ty.params[1].name == Some(AsSingle);
    ty
  }

  /** The descriptor `enum<RolesEnum, as_single, string>`. */
  function RolesAsSingleString(): (ty: TypeNode)
    ensures HasEnumClassParameter(ty) && EnumClassName(ty) == RolesEnum
    ensures HasAsSingleParameter(ty) && FindDeserializationType(ty) == Some(String)
  {
    var ty := TypeNode(Some(EnumTypeName), [Param(RolesEnum), Param(AsSingle), Param("string")]);
    assert ty.params[1].name == Some(AsSingle);
    assert !IsTagParameter(ty.params[0]) && !IsTagParameter(ty.params[1]) && IsTagParameter(ty.params[2]);
    ty
  }

  /** The library's view of the mask 3: employee then admin, and back. */
  lemma AdminAndEmployee()
    ensures Decompose(Roles(3)) == [EmployeeRole, AdminRole]
    ensures Compose(RolesEnum, [EmployeeRole, AdminRole]) == Roles(3)
    ensures Library.get(RoleEnum, Atom(EmployeeRole.value)) == Some(EmployeeRole)
    ensures Library.get(RoleEnum, Atom(AdminRole.value)) == Some(AdminRole)
  {
    assert (3 / 4) % 2 == 0 && (3 / 2) % 2 == 1 && 3 % 2 == 1;
    assert UserRole !in [EmployeeRole, AdminRole];
  }

  /** `RolesEnum` is a multi-enum whose single-enum class is `RoleEnum`. */
  lemma RolesIsMultiEnum()
    ensures Library.isEnum(RolesEnum) && Library.isMultiEnum(RolesEnum)
    ensures Library.singleEnumClass(RolesEnum) == Some(RoleEnum)
  {
  }

  /** The JSON visitor writes an array of enums as the list of their values. */
  lemma JsonArrayOfRoles(ty: TypeNode)
    ensures JsonOut.visitArray([EmployeeRole, AdminRole], ty)
      == List([Atom(StringValue("employee")), Atom(StringValue("admin"))])
  {
  }

  /** The mask 3 under `enum<RolesEnum, as_single>` is written as the array
      of its single roles' values. */
  lemma AsSingleSerializeScenario(frames: seq<Frame>)
    ensures SerializeEnum(Library, JsonOut, Roles(3), RolesAsSingle(), frames)
      == Success(List([Atom(StringValue("employee")), Atom(StringValue("admin"))]))
  {
    RolesIsMultiEnum();
    AdminAndEmployee();
    JsonArrayOfRoles(ArrayValueType(Some(RoleEnum)));
    SerializeAsSingleOutput(Library, JsonOut, Roles(3), RolesAsSingle(), frames);
  }

  /** The array of single role values reads back as the mask 3. */
  lemma AsSingleDeserializeScenario(frames: seq<Frame>)
    ensures DeserializeEnum(Library, JsonIn, List([Atom(StringValue("employee")), Atom(StringValue("admin"))]), RolesAsSingle(), frames)
      == Success(Roles(3))
  {
    var singles := [EmployeeRole, AdminRole];
    AdminAndEmployee();
    var wire := List([Atom(StringValue("employee")), Atom(StringValue("admin"))]);
    RolesIsMultiEnum();
    DeserializeAsSingleElements(Library, JsonIn, wire, RolesAsSingle(), frames);
    assert DeserializationVisitType(JsonIn, wire.items[0], RolesAsSingle()) == wire.items[0];
    assert DeserializationVisitType(JsonIn, wire.items[1], RolesAsSingle()) == wire.items[1];
    assert Decodable(Library, JsonIn, RoleEnum, wire.items[0], RolesAsSingle());
    assert Decodable(Library, JsonIn, RoleEnum, wire.items[1], RolesAsSingle());
    var r := DeserializeEnum(Library, JsonIn, wire, RolesAsSingle(), frames);
    assert r.Success?;
    var xs: seq<EnumObject> :| |xs| == 2 && (forall i :: 0 <= i < 2 ==> Library.get(RoleEnum, DeserializationVisitType(JsonIn, wire.items[i], RolesAsSingle())) == Some(xs[i]))
      && r.value == Library.getMultiByEnums(RolesEnum, xs);
    assert xs[0] == EmployeeRole && xs[1] == AdminRole;
    assert xs == singles;
  }

  /** With the `string` override, the JSON visitor passes a string through
      and the XML visitor reads an element's text. */
  lemma StringOverrideReads(ty: TypeNode)
    requires FindDeserializationType(ty) == Some(String)
    ensures forall text :: DeserializationVisitType(JsonIn, Atom(StringValue(text)), ty) == Atom(StringValue(text))
    ensures forall text :: DeserializationVisitType(XmlIn, XmlNode(text, []), ty) == Atom(StringValue(text))
  {
  }

  /** Two wire items that normalise to `"employee"` and `"admin"` are read
      as the library's decomposition of the mask 3, item by item. */
  lemma ItemsOfMaskThree(dv: DeserializationVisitor, ty: TypeNode, wire: seq<Data>)
    requires |wire| == 2
    requires DeserializationVisitType(dv, wire[0], ty) == Atom(StringValue("employee"))
    requires DeserializationVisitType(dv, wire[1], ty) == Atom(StringValue("admin"))
    ensures |wire| == |Library.getEnums(Roles(3))|
    ensures forall i :: 0 <= i < |wire| ==>
      Library.get(RoleEnum, DeserializationVisitType(dv, wire[i], ty)) == Some(Library.getEnums(Roles(3))[i])
    ensures Library.getMultiByEnums(RolesEnum, Library.getEnums(Roles(3))) == Roles(3)
  {
    AdminAndEmployee();
  }

  /** Under `enum<RolesEnum, as_single, string>` the mask 3 is written to
      JSON as `["employee", "admin"]`, and that array reads back through
      the `string` override as the mask 3. */
  lemma AsSingleWithTypeJsonScenario(frames: seq<Frame>)
    ensures SerializeEnum(Library, JsonOut, Roles(3), RolesAsSingleString(), frames)
      == Success(List([Atom(StringValue("employee")), Atom(StringValue("admin"))]))
    ensures DeserializeEnum(Library, JsonIn, List([Atom(StringValue("employee")), Atom(StringValue("admin"))]), RolesAsSingleString(), frames)
      == Success(Roles(3))
  {
    var ty := RolesAsSingleString();
    var json := [Atom(StringValue("employee")), Atom(StringValue("admin"))];
    RolesIsMultiEnum();
    AdminAndEmployee();
    JsonArrayOfRoles(ArrayValueType(Some(RoleEnum)));
    StringOverrideReads(ty);
    ItemsOfMaskThree(JsonIn, ty, json);
    AsSingleRoundTrip(Library, JsonOut, JsonIn, Roles(3), RoleEnum, ty, frames, json);
  }

  /** An iterable value whose entries the single-enum class maps, one by
      one, to given single enums reads back as the multi-enum the library
      builds from them. */
  lemma ReadsEntriesAs(lib: EnumLibrary, dv: DeserializationVisitor, data: Data, ty: TypeNode, frames: seq<Frame>, single: ClassName, singles: seq<EnumObject>)
    requires HasEnumClassParameter(ty) && lib.isEnum(EnumClassName(ty)) && HasAsSingleParameter(ty)
    requires lib.isMultiEnum(EnumClassName(ty)) && lib.singleEnumClass(EnumClassName(ty)) == Some(single)
    requires IsIterable(data) && |Elements(data)| == |singles|
    requires forall i :: 0 <= i < |singles| ==> lib.get(single, DeserializationVisitType(dv, Elements(data)[i], ty)) == Some(singles[i])
    ensures DeserializeEnum(lib, dv, data, ty, frames) == Success(lib.getMultiByEnums(EnumClassName(ty), singles))
  {
    var items := Elements(data);
    var decoded := DecodeEach(lib, dv, single, items, ty);
    assert decoded.Success? by {
      forall i | 0 <= i < |items| ensures Decodable(lib, dv, single, items[i], ty) {}
    }
    assert decoded.value == singles;
  }

  /** From XML, the host hands over the property's element, which is
      Traversable but not an array. Iterating it visits the entry elements;
      their texts are read through the `string` override and give the
      mask 3. */
  lemma AsSingleWithTypeXmlScenario(frames: seq<Frame>)
    ensures DeserializeEnum(Library, XmlIn, XmlNode("", [XmlNode("employee", []), XmlNode("admin", [])]), RolesAsSingleString(), frames)
      == Success(Roles(3))
  {
    var ty := RolesAsSingleString();
    var xml := [XmlNode("employee", []), XmlNode("admin", [])];
    RolesIsMultiEnum();
    StringOverrideReads(ty);
    ItemsOfMaskThree(XmlIn, ty, xml);
    ReadsEntriesAs(Library, XmlIn, XmlNode("", xml), ty, frames, RoleEnum, Library.getEnums(Roles(3)));
  }

  /** With `as_single`, a string fails as not iterable, wrapped with the
      bare field name. */
  lemma NotIterableScenario(frames: seq<Frame>, name: string, serialized: string)
    requires frames == TopLevel(name, serialized)
    requires !(|name| > 0 && name[|name| - 1] == ':') && EndsClear(serialized, '.')
    ensures DeserializeEnum(Library, JsonIn, Atom(StringValue("foo")), RolesAsSingle(), frames)
      == Failure(DeserializationInvalidValue(serialized, NotIterableValue(Atom(StringValue("foo")))))
  {
    TopLevelPaths(frames, name, serialized);
    DeserializeAsSingleChecks(Library, JsonIn, Atom(StringValue("foo")), RolesAsSingle(), frames);
  }

  /** With `as_single`, a single-enum class fails in both directions, and a
      multi-enum class without a single-enum class fails in both directions;
      all unwrapped. */
  lemma AsSingleConfigurationScenarios()
    ensures SerializeEnum(Library, JsonOut, AdminRole, RoleAsSingle(), TopLevel("singleMappedAsMulti", "single_mapped_as_multi"))
      == Failure(NotMultiEnum(RoleEnum))
    ensures DeserializeEnum(Library, JsonIn, List([Atom(StringValue("admin"))]), RoleAsSingle(), TopLevel("singleMappedAsMulti", "single_mapped_as_multi"))
      == Failure(NotMultiEnum(RoleEnum))
    ensures DeserializeEnum(Library, JsonIn, Atom(IntValue(1)), FooAsSingle(), TopLevel("multiNoSingleEnumMapped", "multi_no_single_enum_mapped"))
      == Failure(NoSingleEnumSpecified(FooEnum))
    ensures SerializeEnum(Library, JsonOut, EnumObject(FooEnum, IntValue(1)), FooAsSingle(), TopLevel("multiNoSingleEnumMapped", "multi_no_single_enum_mapped"))
      == Failure(NoSingleEnumSpecified(FooEnum))
  {
    assert !Library.isMultiEnum(RoleEnum) && Library.isEnum(RoleEnum);
    assert Library.isEnum(FooEnum) && Library.isMultiEnum(FooEnum) && Library.singleEnumClass(FooEnum).None?;
    SerializeAsSingleOutput(Library, JsonOut, AdminRole, RoleAsSingle(), TopLevel("singleMappedAsMulti", "single_mapped_as_multi"));
    DeserializeAsSingleChecks(Library, JsonIn, List([Atom(StringValue("admin"))]), RoleAsSingle(), TopLevel("singleMappedAsMulti", "single_mapped_as_multi"));
    DeserializeAsSingleChecks(Library, JsonIn, Atom(IntValue(1)), FooAsSingle(), TopLevel("multiNoSingleEnumMapped", "multi_no_single_enum_mapped"));
    SerializeAsSingleOutput(Library, JsonOut, EnumObject(FooEnum, IntValue(1)), FooAsSingle(), TopLevel("multiNoSingleEnumMapped", "multi_no_single_enum_mapped"));
  }

  /** From XML, `enum<RoleEnum>` hands the element itself to the lookup,
      which rejects it; `enum<RoleEnum, string>` reads the element's text
      first and finds the role. */
  lemma XmlOverrideScenario(frames: seq<Frame>, name: string, serialized: string)
    requires frames == TopLevel(name, serialized)
    requires !(|name| > 0 && name[|name| - 1] == ':') && EndsClear(serialized, '.')
    ensures DeserializeEnum(Library, XmlIn, XmlNode("admin", []), TypeNode(Some(EnumTypeName), [Param(RoleEnum)]), frames)
      == Failure(DeserializationInvalidValue(serialized, InvalidEnumValue(XmlNode("admin", []), RoleEnum)))
    ensures DeserializeEnum(Library, XmlIn, XmlNode("admin", []), TypeNode(Some(EnumTypeName), [Param(RoleEnum), Param("string")]), frames)
      == Success(AdminRole)
  {
    var plain := TypeNode(Some(EnumTypeName), [Param(RoleEnum)]);
    var typed := TypeNode(Some(EnumTypeName), [Param(RoleEnum), Param("string")]);
    assert !IsTagParameter(plain.params[0]);
    assert !IsTagParameter(typed.params[0]) && IsTagParameter(typed.params[1]);
    assert FindDeserializationType(typed) == Some(String);
    assert Library.isEnum(RoleEnum) && !HasAsSingleParameter(plain) && !HasAsSingleParameter(typed);
    TopLevelPaths(frames, name, serialized);
    DeserializePlain(Library, XmlIn, XmlNode("admin", []), plain, frames);
    DeserializePlain(Library, XmlIn, XmlNode("admin", []), typed, frames);
  }
}
