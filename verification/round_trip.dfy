/** Serializing an enum and deserializing the output gives the enum back,
    for a library whose lookup recognises the enum's own value and for
    visitors that agree on the wire form of a scalar. */
module RoundTrip {
  import opened Wrappers
  import opened EnumValueType
  import opened TypeDescriptor
  import opened Collaborators
  import opened Errors
  import opened Paths
  import opened EnumSerializerHandler

  /** A visitor that writes each scalar as itself, as the JSON visitor does. */
  ghost predicate EmitsNaturally(sv: ScalarVisitor<Scalar, Data>, ty: TypeNode) {
    forall s: Scalar :: VisitType(sv, s, ValueTypeOf(s), ty) == Atom(s)
  }

  /** A deserialization visitor whose operation for a scalar's kind reads
      back what the serialization visitor wrote for it, as the XML visitors
      do for text. */
  ghost predicate ReadsBack(sv: ScalarVisitor<Scalar, Data>, dv: DeserializationVisitor, ty: TypeNode) {
    forall s: Scalar :: VisitType(dv, VisitType(sv, s, ValueTypeOf(s), ty), ValueTypeOf(s), ty) == Atom(s)
  }

  /** The descriptor maps exactly the enum's class, without `as_single`. */
  predicate MapsSingleEnum(lib: EnumLibrary, e: EnumObject, ty: TypeNode) {
    HasEnumClassParameter(ty) && EnumClassName(ty) == e.enumClass && lib.isEnum(e.enumClass)
    && !HasAsSingleParameter(ty)
  }

  /** Natural wire form and no override tag: the wire value is the enum's
      scalar, and reading it back yields the enum. */
  lemma NaturalRoundTrip(lib: EnumLibrary, sv: SerializationVisitor<Data>, dv: DeserializationVisitor,
                         e: EnumObject, ty: TypeNode, frames: seq<Frame>)
    requires MapsSingleEnum(lib, e, ty) && FindDeserializationType(ty).None?
    requires EmitsNaturally(sv.scalars, ty)
    requires lib.get(e.enumClass, Atom(e.value)) == Some(e)
    ensures SerializeEnum(lib, sv, e, ty, frames) == Success(Atom(e.value))
    ensures DeserializeEnum(lib, dv, SerializeEnum(lib, sv, e, ty, frames).value, ty, frames) == Success(e)
  {
    assert VisitType(sv.scalars, e.value, ValueTypeOf(e.value), ty) == Atom(e.value);
  }

  /** Textual wire form with an override tag naming the value's kind: the
      override's operation reads the text back into the scalar, and the
      lookup yields the enum. */
  lemma TextualRoundTrip(lib: EnumLibrary, sv: SerializationVisitor<Data>, dv: DeserializationVisitor,
                         e: EnumObject, ty: TypeNode, frames: seq<Frame>)
    requires MapsSingleEnum(lib, e, ty) && FindDeserializationType(ty) == Some(ValueTypeOf(e.value))
    requires ReadsBack(sv.scalars, dv, ty)
    requires lib.get(e.enumClass, Atom(e.value)) == Some(e)
    ensures SerializeEnum(lib, sv, e, ty, frames).Success?
    ensures DeserializeEnum(lib, dv, SerializeEnum(lib, sv, e, ty, frames).value, ty, frames) == Success(e)
  {
    var wire := VisitType(sv.scalars, e.value, ValueTypeOf(e.value), ty);
    assert VisitType(dv, wire, ValueTypeOf(e.value), ty) == Atom(e.value);
  }

  /** A multi-enum serialized with `as_single` reads back as the same
      multi-enum, with or without an override tag, when the visitor writes
      one wire item per single enum, the library recognises each item, once
      normalised, as the single enum it was written from, and the library
      rebuilds the multi-enum from its own decomposition. */
  lemma AsSingleRoundTrip(lib: EnumLibrary, sv: SerializationVisitor<Data>, dv: DeserializationVisitor,
                          e: EnumObject, single: ClassName, ty: TypeNode, frames: seq<Frame>, wire: seq<Data>)
    requires HasEnumClassParameter(ty) && EnumClassName(ty) == e.enumClass && lib.isEnum(e.enumClass)
    requires HasAsSingleParameter(ty)
    requires lib.isMultiEnum(e.enumClass) && lib.singleEnumClass(e.enumClass) == Some(single)
    requires sv.visitArray(lib.getEnums(e), ArrayValueType(Some(single))) == List(wire)
    requires |wire| == |lib.getEnums(e)|
    requires forall i :: 0 <= i < |wire| ==>
      lib.get(single, DeserializationVisitType(dv, wire[i], ty)) == Some(lib.getEnums(e)[i])
    requires lib.getMultiByEnums(e.enumClass, lib.getEnums(e)) == e
    ensures SerializeEnum(lib, sv, e, ty, frames) == Success(List(wire))
    ensures DeserializeEnum(lib, dv, SerializeEnum(lib, sv, e, ty, frames).value, ty, frames) == Success(e)
  {
    var singles := lib.getEnums(e);
    var decoded := DecodeEach(lib, dv, single, wire, ty);
    assert decoded.Success? by {
      forall i | 0 <= i < |wire|
        ensures Decodable(lib, dv, single, wire[i], ty)
      {
      }
    }
    assert decoded.value == singles;
  }
}
