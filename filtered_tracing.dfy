/**
  The resolve filter wrapped around the OpenTelemetry extension: what the
  filter's choice means for the spans of one field.
*/
module FilteredTracing {
  import opened Wrappers
  import opened Graphql
  import opened Tracing
  import opened ResolveFilter
  import Redaction

  /** An excluded field gets no span and no event from the wrapped extension: its telemetry is `next`'s. */
  lemma ExcludedFieldIsUntraced<C, D, S>(
    stringify: (C, D, Variables) -> string,
    toJsonString: map<string, Redaction.Json> -> Option<string>,
    excludeFilter: ResolveInfo -> bool,
    ctx: C, info: ResolveInfo,
    next: (C, ResolveInfo) -> Traced<ServerResult<Option<ConstValue>>>)
    requires excludeFilter(info)
    ensures
      var e := New(OpenTelemetry<C, D, S>(stringify, toJsonString), excludeFilter).AsExtension();
      e.resolve(ctx, info, next) == next(ctx, info)
  {
  }

  /** A field that is not excluded nor for introspection gets exactly one span, named after its path. */
  lemma IncludedFieldIsTraced<C, D, S>(
    stringify: (C, D, Variables) -> string,
    toJsonString: map<string, Redaction.Json> -> Option<string>,
    excludeFilter: ResolveInfo -> bool,
    ctx: C, info: ResolveInfo,
    next: (C, ResolveInfo) -> Traced<ServerResult<Option<ConstValue>>>)
    requires !excludeFilter(info) && !info.isForIntrospection
    ensures
      var e := New(OpenTelemetry<C, D, S>(stringify, toJsonString), excludeFilter).AsExtension();
      var r := e.resolve(ctx, info, next);
      && r.value == next(ctx, info).value
      && |r.telemetry.ended| == |next(ctx, info).telemetry.ended| + 1
      && LastEnded(r.telemetry).name == info.pathNode
  {
  }
}
