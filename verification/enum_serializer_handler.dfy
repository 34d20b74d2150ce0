/** The handler's decision layer: reading the descriptor, the serialize and
    deserialize decision trees, and the wrapping of data errors with a path.
    Configuration errors (missing class name, not an enum, not a multi-enum,
    no single-enum class) propagate as they are; data errors are wrapped. */
module EnumSerializerHandler {
  import opened Wrappers
  import opened EnumValueType
  import opened TypeDescriptor
  import opened Collaborators
  import opened Errors
  import opened Paths

  /** The enum class named by the descriptor's first parameter. */
  function GetEnumClass(lib: EnumLibrary, ty: TypeNode): (r: Result<ClassName, Error>)
    ensures !HasEnumClassParameter(ty) ==> r == Failure(MissingEnumName)
    ensures HasEnumClassParameter(ty) && !lib.isEnum(EnumClassName(ty)) ==> r == Failure(NotEnum(EnumClassName(ty)))
    ensures r.Success? <==> HasEnumClassParameter(ty) && lib.isEnum(EnumClassName(ty))
    ensures r.Success? ==> r.value == ty.params[0].name.value
  {
    if !HasEnumClassParameter(ty) then Failure(MissingEnumName)
    else
      var enumClass := EnumClassName(ty);
      if !lib.isEnum(enumClass) then Failure(NotEnum(enumClass)) else Success(enumClass)
  }

  /** Passes exactly for multi-enum classes. */
  function CheckMultiEnum(lib: EnumLibrary, enumClass: ClassName): (r: Outcome<Error>)
    ensures r.Pass? <==> lib.isMultiEnum(enumClass)
    ensures r.Fail? ==> r.error == NotMultiEnum(enumClass)
  {
    if lib.isMultiEnum(enumClass) then Pass else Fail(NotMultiEnum(enumClass))
  }

  /** The type descriptor handed to the visitor's array operation for the
      whole array of single enums of an `as_single` multi-enum:
      `enum<enum<Single>>`; the host uses its first parameter, `enum<Single>`,
      for each element. */
  function ArrayValueType(singleEnumClass: Option<ClassName>): TypeNode {
    TypeNode(Some(EnumTypeName), [TypeNode(Some(EnumTypeName), [TypeNode(singleEnumClass, [])])])
  }

  /** Emits the enum's own value through the visitor operation for its kind. */
  function SerializationVisitType<Out>(sv: SerializationVisitor<Out>, e: EnumObject, ty: TypeNode): Out {
    VisitType(sv.scalars, e.value, ValueTypeOf(e.value), ty)
  }

  function SerializeEnumValue<Out>(lib: EnumLibrary, sv: SerializationVisitor<Out>, e: EnumObject, ty: TypeNode): Result<Out, Error> {
    if HasEnumClassParameter(ty) then
      var mappedEnumClass :- GetEnumClass(lib, ty);
      if mappedEnumClass != e.enumClass then Failure(MappedClassMismatch(mappedEnumClass, e.enumClass))
      else if HasAsSingleParameter(ty) then
        :- CheckMultiEnum(lib, e.enumClass);
        var single := lib.singleEnumClass(mappedEnumClass);
        // the library's decomposition fails when no single-enum class is declared
        if single.None? then Failure(NoSingleEnumSpecified(mappedEnumClass))
        else Success(sv.visitArray(lib.getEnums(e), ArrayValueType(single)))
      else Success(SerializationVisitType(sv, e, ty))
    else Success(SerializationVisitType(sv, e, ty))
  }

  /** Serializes an enum-typed property; a class mismatch is reported with
      the property path, every other failure is a configuration error and is
      reported as is. */
  function SerializeEnum<Out>(lib: EnumLibrary, sv: SerializationVisitor<Out>, e: EnumObject, ty: TypeNode, frames: seq<Frame>): (r: Result<Out, Error>)
    ensures r.Failure? ==>
      || (r.error.SerializationInvalidValue? && r.error.cause.MappedClassMismatch?
          && r.error.propertyPath == PropertyPath(frames)
          && r.error.cause.valueClassName == e.enumClass
          && r.error.cause.mappedClassName != e.enumClass)
      || IsConfigurationError(r.error)
    ensures r.Failure? ==> !IsValueError(r.error)
  {
    match SerializeEnumValue(lib, sv, e, ty)
    case Failure(MappedClassMismatch(mapped, actual)) =>
      Failure(SerializationInvalidValue(PropertyPath(frames), MappedClassMismatch(mapped, actual)))
    case other => other
  }

  /** The wire value after the optional override: coerced through the
      visitor operation for the override tag, or unchanged without one. */
  function DeserializationVisitType(dv: DeserializationVisitor, data: Data, ty: TypeNode): Data {
    match FindDeserializationType(ty)
    case None => data
    case Some(t) => VisitType(dv, data, t, ty)
  }

  /** The library's lookup by value; a rejected value is reported with the
      value and the class. */
  function Get(lib: EnumLibrary, enumClass: ClassName, value: Data): (r: Result<EnumObject, Error>)
    ensures r.Success? <==> lib.get(enumClass, value).Some?
    ensures r.Success? ==> Some(r.value) == lib.get(enumClass, value)
    ensures r.Failure? ==> r.error == InvalidEnumValue(value, enumClass)
  {
    match lib.get(enumClass, value)
    case Some(x) => Success(x)
    case None => Failure(InvalidEnumValue(value, enumClass))
  }

  /** True iff the item, normalised, is accepted by the single enum class. */
  predicate Decodable(lib: EnumLibrary, dv: DeserializationVisitor, singleEnumClass: ClassName, item: Data, ty: TypeNode) {
    lib.get(singleEnumClass, DeserializationVisitType(dv, item, ty)).Some?
  }

  /** The single enums of the items, in input order; the first item the
      library rejects is the error. */
  function DecodeEach(lib: EnumLibrary, dv: DeserializationVisitor, singleEnumClass: ClassName, items: seq<Data>, ty: TypeNode): (r: Result<seq<EnumObject>, Error>)
    ensures r.Success? <==> forall i :: 0 <= i < |items| ==> Decodable(lib, dv, singleEnumClass, items[i], ty)
    ensures r.Success? ==> |r.value| == |items|
    ensures r.Success? ==> forall i :: 0 <= i < |items| ==>
      lib.get(singleEnumClass, DeserializationVisitType(dv, items[i], ty)) == Some(r.value[i])
    ensures r.Failure? ==>
      exists i :: 0 <= i < |items| && !Decodable(lib, dv, singleEnumClass, items[i], ty) &&
        (forall j :: 0 <= j < i ==> Decodable(lib, dv, singleEnumClass, items[j], ty)) &&
        r.error == InvalidEnumValue(DeserializationVisitType(dv, items[i], ty), singleEnumClass)
  {
    if |items| == 0 then Success([])
    else
      var head :- Get(lib, singleEnumClass, DeserializationVisitType(dv, items[0], ty));
      var tail := DecodeEach(lib, dv, singleEnumClass, items[1..], ty);
      if tail.Failure? then
        var k :| 0 <= k < |items[1..]|
          && !Decodable(lib, dv, singleEnumClass, items[1..][k], ty)
          && (forall j :: 0 <= j < k ==> Decodable(lib, dv, singleEnumClass, items[1..][j], ty))
          && tail.error == InvalidEnumValue(DeserializationVisitType(dv, items[1..][k], ty), singleEnumClass);
        assert items[k + 1] == items[1..][k];
        assert forall j :: 1 <= j < k + 1 ==> items[j] == items[1..][j - 1];
        Failure(tail.error)
      else
        assert forall i :: 1 <= i < |items| ==> items[i] == items[1..][i - 1];
        Success([head] + tail.value)
  }

  function DeserializeEnumValue(lib: EnumLibrary, dv: DeserializationVisitor, data: Data, ty: TypeNode): Result<EnumObject, Error> {
    var enumClass :- GetEnumClass(lib, ty);
    if HasAsSingleParameter(ty) then
      :- CheckMultiEnum(lib, enumClass);
      match lib.singleEnumClass(enumClass)
      case None => Failure(NoSingleEnumSpecified(enumClass))
      case Some(singleEnumClass) =>
        if !IsIterable(data) then Failure(NotIterableValue(data))
        else
          var singleEnums :- DecodeEach(lib, dv, singleEnumClass, Elements(data), ty);
          Success(lib.getMultiByEnums(enumClass, singleEnums))
    else Get(lib, enumClass, DeserializationVisitType(dv, data, ty))
  }

  /** Deserializes an enum-typed property; a rejected or non-iterable value
      is reported with the field path, every other failure is a
      configuration error and is reported as is. */
  function DeserializeEnum(lib: EnumLibrary, dv: DeserializationVisitor, data: Data, ty: TypeNode, frames: seq<Frame>): (r: Result<EnumObject, Error>)
    ensures r.Failure? ==>
      || (r.error.DeserializationInvalidValue?
          && (r.error.cause.InvalidEnumValue? || r.error.cause.NotIterableValue?)
          && r.error.fieldPath == FieldPath(frames))
      || IsConfigurationError(r.error)
    ensures r.Failure? ==> !IsValueError(r.error)
    ensures r.Failure? && r.error.DeserializationInvalidValue? ==> IsValueError(r.error.cause)
  {
    match DeserializeEnumValue(lib, dv, data, ty)
    case Failure(e) =>
      if e.InvalidEnumValue? || e.NotIterableValue? then Failure(DeserializationInvalidValue(FieldPath(frames), e))
      else Failure(e)
    case success => success
  }
}
