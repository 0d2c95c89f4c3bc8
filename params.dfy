/** The records the compiler passes between its stages: `Param`, `ParamValue`,
    `ValueArray`, `ParamType` and `DeclareParam`. */
module Params {
  datatype Option<T> = None | Some(value: T)

  /** The closed enumeration of parameter types. No parsing rule yields
      `Null`; it exists for parameters built directly. */
  datatype ParamType = Null | String | Integer | Float | Boolean | Table

  /** A table value: the bracketed SQL type name and the raw row strings. */
  datatype ValueArray = ValueArray(typeName: string, values: seq<string>)

  /** The union `number | string | ValueArray | boolean`. A number that came
      from a digit-only string is kept as a `nat`; one that came from a
      digits-and-dots string keeps its text. */
  datatype Value =
    | IntValue(n: nat)
    | FloatValue(text: string)
    | BoolValue(b: bool)
    | StringValue(s: string)
    | ArrayValue(arr: ValueArray)

  /** A classified value. (`type` is a Dafny keyword, hence `paramType`.) */
  datatype ParamValue = ParamValue(value: Value, paramType: ParamType)

  datatype Param = Param(name: string, value: Value, paramType: ParamType)

  /** The declaration text of one parameter and, for a table, its insert
      statements. */
  datatype DeclareParam = DeclareParam(paramString: string, insert: Option<string>)

  /** The tag agrees with the kind of value carried, as for every value the
      classifier produces. */
  predicate Consistent(value: Value, paramType: ParamType) {
    match paramType
    case Null => false
    case String => value.StringValue?
    case Integer => value.IntValue?
    case Float => value.FloatValue?
    case Boolean => value.BoolValue?
    case Table => value.ArrayValue?
  }

  /** What the declaration generator demands of a parameter: a parameter
      tagged `Table` carries a `ValueArray` (the source casts it to one). */
  predicate Declarable(p: Param) {
    p.paramType == Table ==> p.value.ArrayValue?
  }
}
