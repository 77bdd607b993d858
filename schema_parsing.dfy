/** Type resolution against the GraphQL schema: a field's declared type, seen
    through Non-Null and List wrappers, gives the object type it targets and
    whether the field is list-valued. */
module SchemaParsing {
  import opened Wrappers
  import Strings

  /** A field's declared type. `NamedOther` is any named type that is not an
      object type: a scalar, an enum, an interface, a union or an input type. */
  datatype GraphQLType =
    | ObjectType(name: string)
    | NonNull(wrapped: GraphQLType)
    | ListType(wrapped: GraphQLType)
    | NamedOther(name: string)

  datatype TypeDefinition =
    | ObjectTypeDefinition(fields: map<string, GraphQLType>)
    | OtherTypeDefinition

  /** The schema as a value: every named type, and the name of the query root. */
  datatype Schema = Schema(queryTypeName: string, types: map<string, TypeDefinition>)

  datatype FieldTypeInfo = FieldTypeInfo(graphQLTypeName: string, isList: bool)

  /** `relationName`: the table a type is stored in. */
  function RelationName(info: FieldTypeInfo): string {
    Strings.Lowercase(info.graphQLTypeName)
  }

  /** The named type under all wrappers. */
  function Innermost(t: GraphQLType): GraphQLType {
    match t
    case NonNull(w) => Innermost(w)
    case ListType(w) => Innermost(w)
    case _ => t
  }

  /** How many List wrappers enclose the named type. */
  function ListDepth(t: GraphQLType): nat {
    match t
    case NonNull(w) => ListDepth(w)
    case ListType(w) => 1 + ListDepth(w)
    case _ => 0
  }

  /** `getTypeInfo(type, inList)`: peels Non-Null and List wrappers; a List met while
      already inside a List, or a non-object named type, is an error. */
  function GetTypeInfo(t: GraphQLType, inList: bool): Result<FieldTypeInfo> {
    match t
    case ObjectType(name) => Ok(FieldTypeInfo(name, inList))
    case NonNull(w) => GetTypeInfo(w, inList)
    case ListType(w) =>
      if inList then Err("Nested lists are not supported")
      else GetTypeInfo(w, true)
    case NamedOther(name) => Err("Unsupported type '" + name + "'")
  }

  /** Resolution succeeds exactly for an object type under at most one List wrapper
      (counting the one already entered), and then names that object type and says
      "list" exactly when a List wrapper was met; Non-Null wrappers play no part. */
  lemma {:induction false} TypeInfoCharacterised(t: GraphQLType, inList: bool)
    ensures GetTypeInfo(t, inList).Ok? <==>
              Innermost(t).ObjectType? && ListDepth(t) + (if inList then 1 else 0) <= 1
    ensures GetTypeInfo(t, inList).Ok? ==>
              GetTypeInfo(t, inList).value ==
                FieldTypeInfo(Innermost(t).name, inList || ListDepth(t) == 1)
  {
    match t
    case NonNull(w) => TypeInfoCharacterised(w, inList);
    case ListType(w) => if !inList { TypeInfoCharacterised(w, true); }
    case _ =>
  }

  /** `getFieldTypeInfo(schema, fieldName, typeName)`: an unknown type, a type that
      is not an object type, or a field the type lacks is an error; otherwise the
      field's declared type is resolved starting outside any list. */
  function GetFieldTypeInfo(schema: Schema, fieldName: string, typeName: string): (r: Result<FieldTypeInfo>)
    ensures r.Ok? <==>
              && typeName in schema.types
              && schema.types[typeName].ObjectTypeDefinition?
              && fieldName in schema.types[typeName].fields
              && Innermost(schema.types[typeName].fields[fieldName]).ObjectType?
              && ListDepth(schema.types[typeName].fields[fieldName]) <= 1
    ensures r.Ok? ==>
              var t := schema.types[typeName].fields[fieldName];
              r.value == FieldTypeInfo(Innermost(t).name, ListDepth(t) == 1)
  {
    if typeName !in schema.types || !schema.types[typeName].ObjectTypeDefinition? then
      Err("Type '" + typeName + "' not found in schema")
    else if fieldName !in schema.types[typeName].fields then
      Err("Field '" + fieldName + "' not found on type " + typeName)
    else
      var t := schema.types[typeName].fields[fieldName];
      TypeInfoCharacterised(t, false);
      GetTypeInfo(t, false)
  }
}
