/** What the handler consumes from code outside it, as plain values: the
    scalars an enum may hold, the wire data a deserializer receives, the enum
    library (class tests, lookup by value, multi-enum decomposition and
    reconstruction) and the host's visitors. Library and visitor operations
    are function-valued fields, so every property proved about the handler
    holds for every library and every visitor. */
module Collaborators {
  import opened Wrappers
  import opened EnumValueType
  import opened TypeDescriptor

  /** A fully qualified PHP class name. */
  type ClassName = string

  /** The underlying value of an enum: one of the four PHP scalar kinds.
      A float is carried as a value and never computed on. */
  datatype Scalar =
    | IntValue(i: int)
    | StringValue(s: string)
    | FloatValue(f: real)
    | BoolValue(b: bool)

  /** A wire value as the host hands it to the deserializer: a decoded
      scalar, a decoded array or object (its values in order; keys are
      dropped by iteration), an XML element (iterable over its children,
      with its text content), or null. */
  datatype Data =
    | Null
    | Atom(scalar: Scalar)
    | List(items: seq<Data>)
    | XmlNode(text: string, children: seq<Data>)

  /** True iff the value is a PHP array or a Traversable. */
  predicate IsIterable(d: Data) {
    d.List? || d.XmlNode?
  }

  /** What `foreach` visits, in order. */
  function Elements(d: Data): seq<Data>
    requires IsIterable(d)
  {
    if d.List? then d.items else d.children
  }

  /** An enum instance: its runtime class and its underlying value. */
  datatype EnumObject = EnumObject(enumClass: ClassName, value: Scalar)

  /** The enum library and class reflection, as the handler uses them.
      `get` answers `None` where the library raises its invalid-value error;
      `singleEnumClass` answers `None` where the library has no single-enum
      class for a multi-enum class. */
  datatype EnumLibrary = EnumLibrary(
    isEnum: ClassName -> bool,
    isMultiEnum: ClassName -> bool,
    singleEnumClass: ClassName -> Option<ClassName>,
    get: (ClassName, Data) -> Option<EnumObject>,
    getEnums: EnumObject -> seq<EnumObject>,
    getMultiByEnums: (ClassName, seq<EnumObject>) -> EnumObject)

  /** The four per-scalar operations of a host visitor; each receives the
      value and the property's type descriptor. */
  datatype ScalarVisitor<-In, Out> = ScalarVisitor(
    visitInteger: (In, TypeNode) -> Out,
    visitString: (In, TypeNode) -> Out,
    visitDouble: (In, TypeNode) -> Out,
    visitBoolean: (In, TypeNode) -> Out)

  /** A serialization visitor: scalar operations plus the array operation,
      which receives the enums to emit and the type descriptor of the
      whole array. */
  datatype SerializationVisitor<Out> = SerializationVisitor(
    scalars: ScalarVisitor<Scalar, Out>,
    visitArray: (seq<EnumObject>, TypeNode) -> Out)

  /** A deserialization visitor coerces wire data to the requested scalar. */
  type DeserializationVisitor = ScalarVisitor<Data, Data>

  /** The runtime type name the type utility reports for a scalar. */
  function PhpTypeName(s: Scalar): string {
    match s
    case IntValue(_) => "int"
    case StringValue(_) => "string"
    case FloatValue(_) => "float"
    case BoolValue(_) => "bool"
  }

  /** The tag looked up by the runtime type name of the value. Every scalar
      kind has a tag, so the lookup never fails, and each kind gets its own. */
  function ValueTypeOf(s: Scalar): (t: ValueType)
    ensures Name(t) == PhpTypeName(s)
    ensures s.IntValue? <==> t == Integer
    ensures s.StringValue? <==> t == String
    ensures s.FloatValue? <==> t == Float
    ensures s.BoolValue? <==> t == Boolean
  {
    FromName(PhpTypeName(s)).value
  }

  /** The visitor operation selected by a tag. The four tags are all there
      are, so the dispatch is total and has no fall-through case. */
  function VisitType<In, Out>(v: ScalarVisitor<In, Out>, data: In, t: ValueType, ty: TypeNode): Out {
    match t
    case Integer => v.visitInteger(data, ty)
    case String => v.visitString(data, ty)
    case Float => v.visitDouble(data, ty)
    case Boolean => v.visitBoolean(data, ty)
  }
}
