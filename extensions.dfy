/**
  The phase-hook interface every instrumentation unit implements. A hook gets
  the phase's inputs and `next`, the rest of the chain ending in the engine's
  own work, and returns what its caller sees. The result types are parameters
  so that a unit can carry telemetry beside the engine's result:
  `R` for request and execute, `S` for a subscription stream, `P` for parse,
  `W` for validation and `F` for one field's resolution; `C` is the extension
  context.
*/
module Extensions {
  import opened Wrappers
  import opened Graphql

  datatype Extension<!C, !R, !S, !P, !W, !F> = Extension(
    request: (C, C -> R) -> R,
    subscribe: (C, S, (C, S) -> S) -> S,
    parseQuery: (C, string, Variables, (C, string, Variables) -> P) -> P,
    validation: (C, C -> W) -> W,
    execute: (C, Option<string>, (C, Option<string>) -> R) -> R,
    resolve: (C, ResolveInfo, (C, ResolveInfo) -> F) -> F)
}
