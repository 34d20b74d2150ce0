/** What the serialize and deserialize decision trees promise for each kind
    of descriptor: the missing class name, a class that is not an enum, a
    class mismatch, the plain scalar path and the `as_single` path. */
module HandlerProperties {
  import opened Wrappers
  import opened EnumValueType
  import opened TypeDescriptor
  import opened Collaborators
  import opened Errors
  import opened Paths
  import opened EnumSerializerHandler

  /** Without a named first parameter, deserialization fails with the
      unwrapped missing-name error, while serialization skips every class
      check and emits the enum's own scalar. */
  lemma MissingEnumClassName<Out>(lib: EnumLibrary, sv: SerializationVisitor<Out>, dv: DeserializationVisitor,
                                  e: EnumObject, data: Data, ty: TypeNode, frames: seq<Frame>)
    requires !HasEnumClassParameter(ty)
    ensures DeserializeEnum(lib, dv, data, ty, frames) == Failure(MissingEnumName)
    ensures SerializeEnum(lib, sv, e, ty, frames) == Success(VisitType(sv.scalars, e.value, ValueTypeOf(e.value), ty))
  {
  }

  /** A first parameter naming a class that is not an enum fails in both
      directions with exactly that class name, without a path. */
  lemma NotAnEnum<Out>(lib: EnumLibrary, sv: SerializationVisitor<Out>, dv: DeserializationVisitor,
                       e: EnumObject, data: Data, ty: TypeNode, frames: seq<Frame>)
    requires HasEnumClassParameter(ty) && !lib.isEnum(EnumClassName(ty))
    ensures DeserializeEnum(lib, dv, data, ty, frames) == Failure(NotEnum(EnumClassName(ty)))
    ensures SerializeEnum(lib, sv, e, ty, frames) == Failure(NotEnum(EnumClassName(ty)))
  {
  }

  /** Serializing an enum whose runtime class differs from the mapped class
      fails with the mismatch, wrapped with the property path. */
  lemma ClassMismatch<Out>(lib: EnumLibrary, sv: SerializationVisitor<Out>, e: EnumObject, ty: TypeNode, frames: seq<Frame>)
    requires HasEnumClassParameter(ty) && lib.isEnum(EnumClassName(ty))
    requires EnumClassName(ty) != e.enumClass
    ensures SerializeEnum(lib, sv, e, ty, frames)
      == Failure(SerializationInvalidValue(PropertyPath(frames), MappedClassMismatch(EnumClassName(ty), e.enumClass)))
  {
  }

  /** True iff serialization takes the scalar path: no class name, or a
      matching enum class without `as_single`. */
  predicate PlainSerialization(lib: EnumLibrary, e: EnumObject, ty: TypeNode) {
    !HasEnumClassParameter(ty)
    || (lib.isEnum(EnumClassName(ty)) && EnumClassName(ty) == e.enumClass && !HasAsSingleParameter(ty))
  }

  /** On the scalar path the output is the visitor operation matching the
      kind of the enum's value, applied to that value and the descriptor. */
  lemma SerializeScalarOutput<Out>(lib: EnumLibrary, sv: SerializationVisitor<Out>, e: EnumObject, ty: TypeNode, frames: seq<Frame>)
    requires PlainSerialization(lib, e, ty)
    ensures SerializeEnum(lib, sv, e, ty, frames).Success?
    ensures e.value.IntValue? ==> SerializeEnum(lib, sv, e, ty, frames).value == sv.scalars.visitInteger(e.value, ty)
    ensures e.value.StringValue? ==> SerializeEnum(lib, sv, e, ty, frames).value == sv.scalars.visitString(e.value, ty)
    ensures e.value.FloatValue? ==> SerializeEnum(lib, sv, e, ty, frames).value == sv.scalars.visitDouble(e.value, ty)
    ensures e.value.BoolValue? ==> SerializeEnum(lib, sv, e, ty, frames).value == sv.scalars.visitBoolean(e.value, ty)
  {
  }

  /** With `as_single` on a matching enum class: a class that is not a
      multi-enum fails unwrapped; one without a single-enum class fails
      unwrapped; otherwise the output is the visitor's array operation over
      the library's decomposition, in the library's order. */
  lemma SerializeAsSingleOutput<Out>(lib: EnumLibrary, sv: SerializationVisitor<Out>, e: EnumObject, ty: TypeNode, frames: seq<Frame>)
    requires HasEnumClassParameter(ty) && lib.isEnum(EnumClassName(ty)) && EnumClassName(ty) == e.enumClass
    requires HasAsSingleParameter(ty)
    ensures !lib.isMultiEnum(e.enumClass) ==> SerializeEnum(lib, sv, e, ty, frames) == Failure(NotMultiEnum(e.enumClass))
    ensures lib.isMultiEnum(e.enumClass) && lib.singleEnumClass(e.enumClass).None? ==>
      SerializeEnum(lib, sv, e, ty, frames) == Failure(NoSingleEnumSpecified(e.enumClass))
    ensures lib.isMultiEnum(e.enumClass) && lib.singleEnumClass(e.enumClass).Some? ==>
      SerializeEnum(lib, sv, e, ty, frames)
        == Success(sv.visitArray(lib.getEnums(e), ArrayValueType(lib.singleEnumClass(e.enumClass))))
  {
  }

  /** Without `as_single`, the library's lookup receives the raw wire value
      when no override tag is present, and the value coerced by the
      override's visitor operation otherwise; a rejected value fails with
      the invalid-value error wrapped with the field path. */
  lemma DeserializePlain(lib: EnumLibrary, dv: DeserializationVisitor, data: Data, ty: TypeNode, frames: seq<Frame>)
    requires HasEnumClassParameter(ty) && lib.isEnum(EnumClassName(ty)) && !HasAsSingleParameter(ty)
    ensures
      var input := match FindDeserializationType(ty)
        case None => data
        case Some(t) => VisitType(dv, data, t, ty);
      && (lib.get(EnumClassName(ty), input).Some? ==>
            DeserializeEnum(lib, dv, data, ty, frames) == Success(lib.get(EnumClassName(ty), input).value))
      && (lib.get(EnumClassName(ty), input).None? ==>
            DeserializeEnum(lib, dv, data, ty, frames)
              == Failure(DeserializationInvalidValue(FieldPath(frames), InvalidEnumValue(input, EnumClassName(ty)))))
  {
  }

  /** With `as_single`, the checks come in a fixed order: multi-enum class
      (unwrapped), declared single-enum class (unwrapped), iterable value
      (wrapped with the field path). */
  lemma DeserializeAsSingleChecks(lib: EnumLibrary, dv: DeserializationVisitor, data: Data, ty: TypeNode, frames: seq<Frame>)
    requires HasEnumClassParameter(ty) && lib.isEnum(EnumClassName(ty)) && HasAsSingleParameter(ty)
    ensures !lib.isMultiEnum(EnumClassName(ty)) ==>
      DeserializeEnum(lib, dv, data, ty, frames) == Failure(NotMultiEnum(EnumClassName(ty)))
    ensures lib.isMultiEnum(EnumClassName(ty)) && lib.singleEnumClass(EnumClassName(ty)).None? ==>
      DeserializeEnum(lib, dv, data, ty, frames) == Failure(NoSingleEnumSpecified(EnumClassName(ty)))
    ensures lib.isMultiEnum(EnumClassName(ty)) && lib.singleEnumClass(EnumClassName(ty)).Some? && !IsIterable(data) ==>
      DeserializeEnum(lib, dv, data, ty, frames)
        == Failure(DeserializationInvalidValue(FieldPath(frames), NotIterableValue(data)))
  {
  }

  /** With `as_single` and all checks passed, deserialization succeeds iff
      every element, normalised, is a value of the single enum class; the
      result is then the library's multi-enum built from those single enums
      in input order, and otherwise the first rejected element is reported
      with the field path. */
  lemma DeserializeAsSingleElements(lib: EnumLibrary, dv: DeserializationVisitor, data: Data, ty: TypeNode, frames: seq<Frame>)
    requires HasEnumClassParameter(ty) && lib.isEnum(EnumClassName(ty)) && HasAsSingleParameter(ty)
    requires lib.isMultiEnum(EnumClassName(ty)) && lib.singleEnumClass(EnumClassName(ty)).Some?
    requires IsIterable(data)
    ensures
      var single := lib.singleEnumClass(EnumClassName(ty)).value;
      var items := Elements(data);
      var r := DeserializeEnum(lib, dv, data, ty, frames);
      && (r.Success? <==> forall i :: 0 <= i < |items| ==> Decodable(lib, dv, single, items[i], ty))
      && (r.Success? ==>
            exists singles: seq<EnumObject> ::
              && |singles| == |items|
              && (forall i :: 0 <= i < |items| ==> lib.get(single, DeserializationVisitType(dv, items[i], ty)) == Some(singles[i]))
              && r.value == lib.getMultiByEnums(EnumClassName(ty), singles))
      && (r.Failure? ==>
            exists i :: 0 <= i < |items| && !Decodable(lib, dv, single, items[i], ty) &&
              (forall j :: 0 <= j < i ==> Decodable(lib, dv, single, items[j], ty)) &&
              r.error == DeserializationInvalidValue(FieldPath(frames), InvalidEnumValue(DeserializationVisitType(dv, items[i], ty), single)))
  {
    var single := lib.singleEnumClass(EnumClassName(ty)).value;
    var decoded := DecodeEach(lib, dv, single, Elements(data), ty);
    if decoded.Success? {
      assert DeserializeEnum(lib, dv, data, ty, frames).value == lib.getMultiByEnums(EnumClassName(ty), decoded.value);
    }
  }
}
