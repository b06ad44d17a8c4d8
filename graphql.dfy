/**
  The query engine's own types, as far as the instrumentation looks at them.
  The engine is not part of this model: these are the shapes it hands to the
  phase hooks.
*/
module Graphql {
  import opened Wrappers

  const UsizeLimit: int := 0x1_0000_0000_0000_0000

  /** A 64-bit `usize`. */
  type Usize = x: int | 0 <= x < UsizeLimit

  /**
    An input value (`ConstValue`). `Object` is keyed by field name; the key
    order of the engine's ordered map is not kept, because nothing the
    redactor produces depends on it.
  */
  datatype ConstValue =
    | Null
    | Number(number: int)
    | String(text: string)
    | Boolean(flag: bool)
    | Binary(bytes: seq<bv8>)
    | Enum(name: string)
    | List(items: seq<ConstValue>)
    | Object(fields: map<string, ConstValue>)

  /** The request's variables, a map from variable name to value. */
  type Variables = map<string, ConstValue>

  /** One step of a response path. */
  datatype PathSegment = Index(index: Usize) | Field(name: string)

  /** An error in a response: its message and the path of the field that failed. */
  datatype ServerError = ServerError(message: string, path: seq<PathSegment>)

  type ServerResult<T> = Result<T, ServerError>

  /** A response: the data and the list of errors. */
  datatype Response = Response(data: ConstValue, errors: seq<ServerError>) {
    /** `Response::is_err`: the response carries at least one error. */
    predicate IsErr() {
      |errors| > 0
    }
  }

  /**
    The read-only descriptor of one field resolution. `pathNode` is the
    engine's textual rendering of the field's path, which names the field's span.
  */
  datatype ResolveInfo = ResolveInfo(
    pathNode: string,
    parentType: string,
    returnType: string,
    isForIntrospection: bool)

  /** What validation reports about a document. */
  datatype ValidationResult = ValidationResult(complexity: Usize, depth: Usize)
}
