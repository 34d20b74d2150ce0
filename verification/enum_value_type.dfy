/** The closed set of scalar kinds an enum's underlying value may have, and
    the mapping between each kind and the name the handler reads from a type
    descriptor (`int`, `string`, `float`, `bool`). */
module EnumValueType {
  import opened Wrappers

  /** The four value-type tags: no other scalar kind exists. */
  datatype ValueType = Integer | String | Float | Boolean

  /** The name under which a tag appears in a type descriptor. */
  function Name(t: ValueType): (s: string)
    ensures s in {"int", "string", "float", "bool"}
  {
    match t
    case Integer => "int"
    case String => "string"
    case Float => "float"
    case Boolean => "bool"
  }

  /** True iff `s` names one of the four tags. */
  predicate IsValidName(s: string) {
    s == "int" || s == "string" || s == "float" || s == "bool"
  }

  /** Looks a tag up by its name; `None` for every other string. */
  function FromName(s: string): (r: Option<ValueType>)
    ensures r.Some? <==> IsValidName(s)
    ensures r.Some? ==> Name(r.value) == s
  {
    if s == "int" then Some(Integer)
    else if s == "string" then Some(String)
    else if s == "float" then Some(Float)
    else if s == "bool" then Some(Boolean)
    else None
  }

  /** Tag to name to tag is the identity. */
  lemma NameRoundTrip(t: ValueType)
    ensures FromName(Name(t)) == Some(t)
    ensures IsValidName(Name(t))
  {
  }

  /** Distinct tags have distinct names, so the name determines the tag. */
  lemma NameInjective(a: ValueType, b: ValueType)
    ensures Name(a) == Name(b) ==> a == b
  {
    NameRoundTrip(a);
    NameRoundTrip(b);
  }

  /** The valid names are exactly the names of the four tags. */
  lemma ValidNamesAreTagNames(s: string)
    ensures IsValidName(s) <==> exists t: ValueType :: Name(t) == s
  {
    if IsValidName(s) {
      assert Name(FromName(s).value) == s;
    }
  }

  /** Neither the `as_single` modifier nor an empty name can be read as a
      tag, so a modifier is never mistaken for a scalar-type override. */
  lemma ModifierIsNotATag()
    ensures !IsValidName("as_single")
    ensures FromName("as_single") == None
    ensures !IsValidName("")
  {
  }
}
