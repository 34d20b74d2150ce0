# Enum serializer handler: a Dafny model

This project models the decision and formatting layer of the JMS serializer
handler for Consistence enums (`EnumSerializerHandler`) and the closed set
of scalar value tags it uses (`EnumValueType`). It covers:

- how the handler reads the type descriptor of an `enum` property: the enum
  class in the first parameter, the `as_single` modifier, and the optional
  scalar-type override `int`, `string`, `float` or `bool`;
- the serialize and deserialize decision trees, with one typed error
  outcome per exception kind;
- the wrapping policy. Data errors (class mismatch, rejected value, value
  that is not iterable) are wrapped with a path. Configuration errors
  (missing class name, not an enum, not a multi-enum, no single-enum class)
  pass through unwrapped;
- the two error-location builders: the property path `Class::$outer::$inner`
  and the field path `outer.inner`. Both include PHP's `rtrim` character-mask
  trim.

The enum library and the host's visitors are foreign code. They appear as
datatypes of function-valued fields (`EnumLibrary`, `ScalarVisitor`,
`SerializationVisitor`) passed as parameters, so every general property holds
for every library and every visitor. `Fixtures` instantiates them with the
test suite's roles (`RoleEnum`, the bitmask `RolesEnum`, `FooEnum` without a
single-enum class) and derives the suite's expected outcomes from the model.

Modules, one per file:

| module | file | what |
|---|---|---|
| `Wrappers` | wrappers.dfy | `Option`, `Result`, `Outcome` |
| `EnumValueType` | enum_value_type.dfy | the four tags and their names |
| `TypeDescriptor` | type_descriptor.dfy | descriptor nodes and parameter scans |
| `Collaborators` | collaborators.dfy | scalars, wire data, library and visitor oracles, tag dispatch |
| `Errors` | errors.dfy | the error union |
| `Paths` | paths.dfy | metadata frames, reference path functions, the two loop methods |
| `EnumSerializerHandler` | enum_serializer_handler.dfy | serialize and deserialize |
| `HandlerProperties` | handler_properties.dfy | per-branch outcomes of both directions |
| `RoundTrip` | round_trip.dfy | serialize then deserialize gives the enum back |
| `Fixtures` | fixtures.dfy | concrete library and visitors, test-suite scenarios |

Behaviour of the code worth knowing before reading the model:

- The `as_single` scan and the override scan run over every parameter,
  including the first (src/Enum/EnumSerializerHandler.php:276-279).
- With `as_single`, serialization hands the visitor's array operation the
  enums from `getEnums()` together with the type descriptor
  `enum<enum<Single>>` for the whole array
  (src/Enum/EnumSerializerHandler.php:88-102).
- Only the class mismatch is wrapped on serialization
  (src/Enum/EnumSerializerHandler.php:64-68); every other serialize
  failure propagates as it is.
- A missing class name fails deserialization only: serialization skips every
  class check and emits the scalar (src/Enum/EnumSerializerHandler.php:80,
  106 and 178).
- Both paths are trimmed with `rtrim`, which removes every trailing
  character that occurs in the separator, not one separator
  (src/Enum/EnumSerializerHandler.php:302, 317).

## Model

| member | source | states |
|---|---|---|
| EnumValueType.Name | src/Enum/EnumValueType.php:10-13 | every tag is named by one of the four strings `int`, `string`, `float`, `bool` |
| EnumValueType.FromName | src/Enum/EnumValueType.php:10-13 | lookup by name succeeds exactly for the four tag names, and the tag found carries the name looked up |
| EnumValueType.NameRoundTrip | src/Enum/EnumValueType.php:10-13 | tag to name to tag is the identity |
| EnumValueType.NameInjective | src/Enum/EnumValueType.php:10-13 | the four names are pairwise distinct, so a name determines its tag |
| EnumValueType.ValidNamesAreTagNames | src/Enum/EnumValueType.php:7-13 | a string is a valid tag name iff it is the name of one of the four tags (the tag set is closed) |
| EnumValueType.ModifierIsNotATag | src/Enum/EnumValueType.php:10-13 | `as_single` and the empty name are not tag names, so the modifier is never read as an override |
| TypeDescriptor.FindParameter | src/Enum/EnumSerializerHandler.php:276-279 | no result iff no parameter matches; otherwise the result is a matching parameter with no match before it |
| TypeDescriptor.HasAsSingleParameter | src/Enum/EnumSerializerHandler.php:247-252 | true iff some parameter at any position is named `as_single` |
| TypeDescriptor.FindDeserializationType | src/Enum/EnumSerializerHandler.php:258-269 | no override iff no parameter names a tag; otherwise the override is the tag named by the first such parameter |
| TypeDescriptor.ScanIgnoresPosition | src/Enum/EnumSerializerHandler.php:247-269 | swapping two blocks of parameters keeps the `as_single` answer; a block without tags in front leaves the override unchanged |
| TypeDescriptor.FindParameterSkipsPrefix | src/Enum/EnumSerializerHandler.php:276-279 | a prefix with no match does not change the scan's result |
| TypeDescriptor.HasEnumClassParameter | src/Enum/EnumSerializerHandler.php:237-241 | true iff the first parameter exists and carries a name; without it `HandlerProperties.MissingEnumClassName` pins the outcome of both directions, and `EnumSerializerHandler.GetEnumClass` fails with the missing-name error |
| Collaborators.ValueTypeOf | src/Enum/EnumSerializerHandler.php:116-119 | the runtime type name of every scalar is a tag name, and each scalar kind gets its own tag, so the dispatch never reaches a fall-through |
| Collaborators.VisitType | src/Enum/EnumSerializerHandler.php:132-149 | picks the visitor operation named by the tag; `HandlerProperties.SerializeScalarOutput` pins each tag to its operation (int to `visitInteger`, string to `visitString`, float to `visitDouble`, bool to `visitBoolean`) and `HandlerProperties.DeserializePlain` applies it to the override |
| EnumSerializerHandler.GetEnumClass | src/Enum/EnumSerializerHandler.php:220-231 | missing named first parameter gives the missing-name error; a non-enum class gives the not-enum error with that name; success iff the first parameter names an enum, with that name as the value |
| EnumSerializerHandler.CheckMultiEnum | src/Enum/EnumSerializerHandler.php:281-286 | passes iff the class is a multi-enum, else fails with the not-multi-enum error for that class |
| EnumSerializerHandler.SerializeEnumValue | src/Enum/EnumSerializerHandler.php:78-107 | the serialize decision tree before wrapping; its outcomes per branch are stated by `HandlerProperties.MissingEnumClassName`, `NotAnEnum`, `ClassMismatch`, `SerializeScalarOutput` and `SerializeAsSingleOutput` |
| EnumSerializerHandler.SerializationVisitType | src/Enum/EnumSerializerHandler.php:116-122 | emits the enum's own value through the operation for the value's runtime kind; `HandlerProperties.SerializeScalarOutput` states the output for each of the four kinds |
| EnumSerializerHandler.SerializeEnum | src/Enum/EnumSerializerHandler.php:62-69 | every failure is either the class mismatch wrapped with the property path of the frames (naming the value's class and a different mapped class) or an unwrapped configuration error; no data error escapes unwrapped |
| EnumSerializerHandler.Get | src/Enum/EnumSerializerHandler.php:196 | succeeds iff the library's lookup does, with the same enum; a rejection is the invalid-value error for that value and class |
| EnumSerializerHandler.DeserializationVisitType | src/Enum/EnumSerializerHandler.php:206-214 | the value unchanged without an override, otherwise coerced by the override's operation; `HandlerProperties.DeserializePlain` states that this is what the lookup receives, and `Fixtures.XmlOverrideScenario` shows both cases on an XML element |
| EnumSerializerHandler.DecodeEach | src/Enum/EnumSerializerHandler.php:189-191 | succeeds iff every normalised item is accepted; the result has one single enum per item, in order, each the library's answer for its item; a failure reports the first rejected item |
| EnumSerializerHandler.DeserializeEnumValue | src/Enum/EnumSerializerHandler.php:176-197 | the deserialize decision tree before wrapping; its outcomes per branch are stated by `HandlerProperties.MissingEnumClassName`, `NotAnEnum`, `DeserializePlain`, `DeserializeAsSingleChecks` and `DeserializeAsSingleElements` |
| EnumSerializerHandler.DeserializeEnum | src/Enum/EnumSerializerHandler.php:158-167 | every failure is either a rejected or non-iterable value wrapped with the field path of the frames, or an unwrapped configuration error; no data error escapes unwrapped, and the wrapped cause is always a data error |
| HandlerProperties.MissingEnumClassName | src/Enum/EnumSerializerHandler.php:78-107 | without a named first parameter, deserialization fails with the unwrapped missing-name error, and serialization skips all class checks and emits the scalar through the visitor |
| HandlerProperties.NotAnEnum | src/Enum/EnumSerializerHandler.php:225-228 | a first parameter naming a non-enum fails both directions with the not-enum error carrying exactly that name, without a path |
| HandlerProperties.ClassMismatch | src/Enum/EnumSerializerHandler.php:81-85 | a mapped class different from the value's class fails serialization with the mismatch (mapped, actual), wrapped with the property path |
| HandlerProperties.SerializeScalarOutput | src/Enum/EnumSerializerHandler.php:116-142 | on the scalar path serialization succeeds and the output is the visitor operation for the value's kind: int to `visitInteger`, string to `visitString`, float to `visitDouble`, bool to `visitBoolean` |
| HandlerProperties.SerializeAsSingleOutput | src/Enum/EnumSerializerHandler.php:86-102 | with `as_single`: not a multi-enum fails unwrapped; no single-enum class fails unwrapped; otherwise the output is the array operation over the library's decomposition, with `enum<enum<Single>>` as the descriptor of the whole array |
| HandlerProperties.DeserializePlain | src/Enum/EnumSerializerHandler.php:196-214 | without `as_single` the lookup receives the raw value when there is no override and the value coerced by the override's operation otherwise; the result is the lookup's enum, or its rejection wrapped with the field path |
| HandlerProperties.DeserializeAsSingleChecks | src/Enum/EnumSerializerHandler.php:179-188 | with `as_single` the checks run in order: multi-enum (unwrapped), single-enum class (unwrapped), iterable value (wrapped with the field path) |
| HandlerProperties.DeserializeAsSingleElements | src/Enum/EnumSerializerHandler.php:189-193 | once the checks pass, success iff every element is accepted; then the result is the multi-enum rebuilt from the single enums in input order; else the first rejected element is reported with the field path |
| RoundTrip.NaturalRoundTrip | tests/Enum/EnumSerializerHandlerTest.php:26-41 | with a visitor that writes scalars as themselves and no override, the wire value is the enum's scalar and reading it back gives the enum |
| RoundTrip.TextualRoundTrip | tests/Enum/EnumSerializerHandlerTest.php:43-58 | with an override naming the value's kind and a visitor that reads back what it wrote, serializing then deserializing gives the enum |
| RoundTrip.AsSingleRoundTrip | tests/Enum/EnumSerializerHandlerTest.php:109-153 | with or without an override, a multi-enum written with `as_single` as one wire item per single enum reads back as the same multi-enum, when each item normalises to a value the library maps back to its single enum and the library rebuilds the multi-enum from its own decomposition |
| Paths.RTrim | src/Enum/EnumSerializerHandler.php:302 | the result is a prefix of the input, does not end with a mask character, and everything removed is mask characters |
| Paths.GetPropertyPath | src/Enum/EnumSerializerHandler.php:288-305 | the loop over the stack builds exactly the reference property path |
| Paths.GetFieldPath | src/Enum/EnumSerializerHandler.php:307-320 | the loop over the stack builds exactly the reference field path |
| Paths.SegmentsSnoc | src/Enum/EnumSerializerHandler.php:292-297 | a property frame visited last contributes the first segment, since each name is prepended |
| Paths.OutermostClassSnoc | src/Enum/EnumSerializerHandler.php:293-301 | a property frame visited last supplies the root class |
| Paths.NoPropertyFramesGiveEmptyPaths | src/Enum/EnumSerializerHandler.php:288-320 | a stack without property frames gives empty property and field paths |
| Paths.SegmentsOrigin | src/Enum/EnumSerializerHandler.php:292-300 | a root class exists iff there is a segment, and every segment is the segment of some property frame |
| Paths.RTrimRemovesTail | src/Enum/EnumSerializerHandler.php:302 | trimming a tail of mask characters from a string whose last character is outside the mask gives back that string |
| Paths.PropertyPathShape | src/Enum/EnumSerializerHandler.php:288-305 | when no property name ends with `:`, the property path is the root class and `$name` per property, outermost first, joined by `::`; empty without property frames |
| Paths.FieldPathShape | src/Enum/EnumSerializerHandler.php:307-320 | when no field segment is empty or ends with `.`, the field path is the serialized names, outermost first, joined by `.` |
| Paths.FieldPathTrimsDotsOfNames | src/Enum/EnumSerializerHandler.php:317 | the trim works per character: a serialized name `v.` gives the field path `v` |
| Fixtures.TopLevelPaths | tests/Enum/EnumSerializerHandlerTest.php:402 | a top-level `User` property has property path `User::$name` and field path its serialized name |
| Fixtures.EmbeddedPaths | tests/Enum/EnumSerializerHandlerTest.php:417 | a property of `User::$embeddedObject` has property path `User::$embeddedObject::$name` and field path `embedded_object.<serialized>` |
| Fixtures.MissingEnumNameScenario | tests/Enum/EnumSerializerHandlerTest.php:355-374 | plain `enum` serializes the admin role as `"admin"` and fails to deserialize with the missing-name error |
| Fixtures.InvalidEnumClassScenario | tests/Enum/EnumSerializerHandlerTest.php:376-388 | `enum<stdClass>` fails with the not-enum error naming `stdClass` |
| Fixtures.ClassMismatchScenario | tests/Enum/EnumSerializerHandlerTest.php:396-405 | a role in a `RolesEnum` property fails with the mismatch wrapped with `User::$<name>` |
| Fixtures.EmbeddedClassMismatchScenario | tests/Enum/EnumSerializerHandlerTest.php:407-420 | the same mismatch in the embedded object carries `User::$embeddedObject::$<name>` |
| Fixtures.InvalidValueScenario | tests/Enum/EnumSerializerHandlerTest.php:462-468 | `"foo"` in the embedded object fails with the invalid-value error wrapped with `embedded_object.<serialized>` |
| Fixtures.AsSingleSerializeScenario | tests/Enum/EnumSerializerHandlerTest.php:109-121 | the mask 3 under `enum<RolesEnum, as_single>` is written as `["employee", "admin"]` |
| Fixtures.AsSingleDeserializeScenario | tests/Enum/EnumSerializerHandlerTest.php:109-127 | `["employee", "admin"]` reads back as the mask 3 |
| Fixtures.AsSingleWithTypeJsonScenario | tests/Enum/EnumSerializerHandlerTest.php:132-153 | under `enum<RolesEnum, as_single, string>` the mask 3 is written as `["employee", "admin"]` and read back as the mask 3 |
| Fixtures.AsSingleWithTypeXmlScenario | tests/Enum/EnumSerializerHandlerTest.php:143-153 | under the same descriptor, an XML element (iterable, not an array) whose entries hold `employee` and `admin` is read entry by entry through the `string` override as the mask 3 |
| Fixtures.NotIterableScenario | tests/Enum/EnumSerializerHandlerTest.php:576-591 | a string under `as_single` fails as not iterable, wrapped with the bare field name |
| Fixtures.AsSingleConfigurationScenarios | tests/Enum/EnumSerializerHandlerTest.php:517-574 | `as_single` on a single-enum class fails with the not-multi-enum error in both directions; on `FooEnum` with the no-single-enum error in both directions; all unwrapped |
| Fixtures.XmlOverrideScenario | tests/Enum/EnumSerializerHandlerTest.php:593-613 | from XML, without an override the element itself is rejected, wrapped with the field name; with the `string` override its text is read and the admin role is found, which is also the XML case of the `single enum with type` data set (tests/Enum/EnumSerializerHandlerTest.php:44-60) |

## Left out

- `getSubscribingMethods` (src/Enum/EnumSerializerHandler.php:33-53) registers the handler with the host. It has no logic.
- The host's visitors are not modelled internally. They are function parameters: JSON and XML writing and reading, and the coercion of XML elements. The fixtures' XML visitor implements only the string coercion.
- The enum library and class reflection are parameters: `get`, `getEnums`, `getMultiByEnums`, `getSingleEnumClass`, `is_a`. The fixtures' library is a concrete witness built from the test data's roles. The bit ordering of `RolesEnum` belongs to the library.
- Floats are carried as values of kind float and never computed on.
- The exception classes are error variants carrying the same fields. Their message text is not modelled.
- The `Context` object is reduced to its metadata stack, given as a sequence of frames in iteration order. A frame is a property (declaring class, name, optional serialized name) or any other kind of metadata.
- The descriptor always has a parameter list, as the host always supplies one. A parameter without a name never matches a scan. In PHP such a parameter would raise an undefined-index notice.
- EnumSerializerHandler.SerializeEnum: where the library has no single-enum class for an `as_single` multi-enum, the model returns `NoSingleEnumSpecified` itself. In the code, that error is raised inside the library's `getEnums`.
- The `default` branch of `visitType` (src/Enum/EnumSerializerHandler.php:145-146) is not modelled. The tag datatype has exactly four cases, so the dispatch is total.
- Fixtures: class names are written without their namespace.
