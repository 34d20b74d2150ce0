/** The type descriptor the host framework attaches to an `enum` property,
    and the handler's reading of it: the enum class named by the first
    parameter, the `as_single` modifier and the optional scalar-type
    override, both found by scanning the whole parameter list. */
module TypeDescriptor {
  import opened Wrappers
  import opened EnumValueType

  /** Name of the modifier that turns a multi-enum into an array of its
      single enums. */
  const AsSingle: string := "as_single"

  /** The type name under which the handler is registered. */
  const EnumTypeName: string := "enum"

  /** A type descriptor node: an optional name and ordered parameters, each
      itself a descriptor (`enum<RoleEnum, string>` has name `enum` and the
      parameters `RoleEnum` and `string`). */
  datatype TypeNode = TypeNode(name: Option<string>, params: seq<TypeNode>)

  /** The first parameter in `params` accepted by `matches`, or `None` when
      no parameter is accepted. */
  function FindParameter(params: seq<TypeNode>, matches: TypeNode -> bool): (r: Option<TypeNode>)
    ensures r.None? <==> forall i :: 0 <= i < |params| ==> !matches(params[i])
    ensures r.Some? ==>
      exists i :: 0 <= i < |params| && params[i] == r.value && matches(params[i])
        && forall j :: 0 <= j < i ==> !matches(params[j])
  {
    if |params| == 0 then None
    else if matches(params[0]) then Some(params[0])
    else
      var r := FindParameter(params[1..], matches);
      if r.Some? then
        var k :| 0 <= k < |params[1..]| && params[1..][k] == r.value && matches(params[1..][k])
          && forall j :: 0 <= j < k ==> !matches(params[1..][j]);
        assert params[k + 1] == r.value;
        r
      else r
  }

  /** True iff the descriptor has a first parameter and that parameter has
      a name. */
  predicate HasEnumClassParameter(ty: TypeNode) {
    |ty.params| > 0 && ty.params[0].name.Some?
  }

  /** The name carried by the first parameter. */
  function EnumClassName(ty: TypeNode): string
    requires HasEnumClassParameter(ty)
  {
    ty.params[0].name.value
  }

  predicate IsAsSingle(p: TypeNode) {
    p.name == Some(AsSingle)
  }

  /** True iff some parameter, at any position, is named `as_single`. */
  function HasAsSingleParameter(ty: TypeNode): (b: bool)
    ensures b <==> exists i :: 0 <= i < |ty.params| && ty.params[i].name == Some(AsSingle)
  {
    FindParameter(ty.params, IsAsSingle).Some?
  }

  /** True iff the parameter's name is one of the value-type tag names. */
  predicate IsTagParameter(p: TypeNode) {
    p.name.Some? && IsValidName(p.name.value)
  }

  /** The tag named by the first parameter, at any position, whose name is a
      tag name; `None` when no parameter names a tag. */
  function FindDeserializationType(ty: TypeNode): (r: Option<ValueType>)
    ensures r.None? <==> forall i :: 0 <= i < |ty.params| ==> !IsTagParameter(ty.params[i])
    ensures r.Some? ==>
      exists i :: 0 <= i < |ty.params| && ty.params[i].name == Some(Name(r.value))
        && forall j :: 0 <= j < i ==> !IsTagParameter(ty.params[j])
  {
    match FindParameter(ty.params, IsTagParameter)
    case None => None
    case Some(p) => FromName(p.name.value)
  }

  /** Where the modifier and the override sit among the parameters does not
      matter: swapping two blocks of parameters keeps the `as_single` answer,
      and a block without tags in front leaves the override unchanged. */
  lemma {:induction false} ScanIgnoresPosition(n: Option<string>, a: seq<TypeNode>, b: seq<TypeNode>)
    ensures HasAsSingleParameter(TypeNode(n, a + b)) == HasAsSingleParameter(TypeNode(n, b + a))
    ensures FindDeserializationType(TypeNode(n, a)).None? ==>
      FindDeserializationType(TypeNode(n, a + b)) == FindDeserializationType(TypeNode(n, b))
  {
    var ab := TypeNode(n, a + b);
    var ba := TypeNode(n, b + a);
    if HasAsSingleParameter(ab) {
      var i :| 0 <= i < |ab.params| && ab.params[i].name == Some(AsSingle);
      if i < |a| {
        assert ba.params[|b| + i] == a[i];
      } else {
        assert ba.params[i - |a|] == b[i - |a|];
      }
    }
    if HasAsSingleParameter(ba) {
      var i :| 0 <= i < |ba.params| && ba.params[i].name == Some(AsSingle);
      if i < |b| {
        assert ab.params[|a| + i] == b[i];
      } else {
        assert ab.params[i - |b|] == a[i - |b|];
      }
    }
    if FindDeserializationType(TypeNode(n, a)).None? {
      assert ab.params[|a|..] == b;
      FindParameterSkipsPrefix(a, b, IsTagParameter);
    }
  }

  /** A prefix with no matching parameter is skipped by the scan. */
  lemma {:induction false} FindParameterSkipsPrefix(a: seq<TypeNode>, b: seq<TypeNode>, matches: TypeNode -> bool)
    requires forall i :: 0 <= i < |a| ==> !matches(a[i])
    ensures FindParameter(a + b, matches) == FindParameter(b, matches)
  {
    if |a| > 0 {
      assert (a + b)[1..] == a[1..] + b;
      FindParameterSkipsPrefix(a[1..], b, matches);
    } else {
      assert a + b == b;
    }
  }
}
