/** The handler's failure outcomes, one variant per exception kind it raises
    or lets through, carrying the same fields the exceptions store. */
module Errors {
  import opened Collaborators

  datatype Error =
    | MissingEnumName
    | NotEnum(className: ClassName)
    | NotMultiEnum(className: ClassName)
    | MappedClassMismatch(mappedClassName: ClassName, valueClassName: ClassName)
    | NotIterableValue(value: Data)
      /** Raised by the enum library when `get` rejects a value. */
    | InvalidEnumValue(value: Data, enumClass: ClassName)
      /** Raised by the enum library for a multi-enum without a single-enum class. */
    | NoSingleEnumSpecified(enumClass: ClassName)
    | SerializationInvalidValue(propertyPath: string, cause: Error)
    | DeserializationInvalidValue(fieldPath: string, cause: Error)

  /** A defect of the static mapping: reported as is, without a path. */
  predicate IsConfigurationError(e: Error) {
    e.MissingEnumName? || e.NotEnum? || e.NotMultiEnum? || e.NoSingleEnumSpecified?
  }

  /** A defect of the data being converted: reported with a path. */
  predicate IsValueError(e: Error) {
    e.MappedClassMismatch? || e.NotIterableValue? || e.InvalidEnumValue?
  }
}
