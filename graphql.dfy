/** The parsed GraphQL document the builder walks, as graphql-java hands it over:
    selections with their names, aliases, literal arguments and sub-selections. */
module GraphQL {
  import opened Wrappers

  /** A literal argument value (`graphql.language.Value`). A float literal is kept as
      its text: no floating-point semantics are modelled. */
  datatype Value =
    | IntValue(i: int)
    | FloatValue(text: string)
    | BooleanValue(b: bool)
    | StringValue(s: string)
    | EnumValue(name: string)
    | NullValue
    | ArrayValue(values: seq<Value>)
    | ObjectValue(objectFields: seq<ObjectField>)
    | VariableReference(variable: string)

  datatype ObjectField = ObjectField(name: string, value: Value)

  datatype Argument = Argument(name: string, value: Value)

  /** A selection: a field, or a fragment the builders do not expand. */
  datatype Selection =
    | Field(name: string, alias: Option<string>, arguments: seq<Argument>, selectionSet: Option<SelectionSet>)
    | FragmentSpread(fragmentName: string)
    | InlineFragment(fragmentSelections: SelectionSet)

  /** The selections between one pair of braces, in document order. */
  datatype SelectionSet = SelectionSet(selections: seq<Selection>)

  /** `selection.alias ?: selection.name` */
  function ResponseAlias(f: Selection): string
    requires f.Field?
  {
    match f.alias
    case Some(a) => a
    case None => f.name
  }

  /** `filterIsInstance<Field>()`: the fields of a selection set, in order. */
  function Fields(sels: seq<Selection>): (r: seq<Selection>)
    ensures forall x :: x in r <==> x in sels && x.Field?
    ensures |r| <= |sels|
  {
    if |sels| == 0 then []
    else if sels[0].Field? then [sels[0]] + Fields(sels[1..])
    else Fields(sels[1..])
  }

  /** The fields of a selection set called `name`, in order. */
  function FieldsNamed(sels: seq<Selection>, name: string): (r: seq<Selection>)
    ensures forall x :: x in r <==> x in sels && x.Field? && x.name == name
  {
    if |sels| == 0 then []
    else if sels[0].Field? && sels[0].name == name then [sels[0]] + FieldsNamed(sels[1..], name)
    else FieldsNamed(sels[1..], name)
  }

  /** Response aliases of the fields called `name`:
      `filterIsInstance<Field>().filter { it.name == name }.map { it.alias ?: it.name }`. */
  function AliasesOf(sels: seq<Selection>, name: string): (r: seq<string>)
    ensures |r| == |FieldsNamed(sels, name)|
  {
    var fs := FieldsNamed(sels, name);
    seq(|fs|, i requires 0 <= i < |fs| => ResponseAlias(fs[i]))
  }

  /** `filterIsInstance<Field>().single { it.name == name }`: fails unless exactly one
      field has that name. */
  function Single(sels: seq<Selection>, name: string): (r: Result<Selection>)
    ensures r.Ok? <==> |FieldsNamed(sels, name)| == 1
    ensures r.Ok? ==> r.value in sels && r.value.Field? && r.value.name == name
  {
    var fs := FieldsNamed(sels, name);
    if |fs| == 1 then
      assert fs[0] in fs;
      Ok(fs[0])
    else if |fs| == 0 then Err("Collection contains no element matching the predicate.")
    else Err("Collection contains more than one matching element.")
  }
}
