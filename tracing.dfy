/**
  The OpenTelemetry extension's span rules. The tracer is not modelled: a
  span is the record of what was set on it, and a computation's telemetry is
  the list of spans it started and ended (in the order they ended) together
  with what it recorded on the span that was current while it ran. A hook
  that runs `next` inside a new span turns `next`'s current-span records into
  records on that span, and the span ends after every span `next` started.
*/
module Tracing {
  import opened Wrappers
  import opened Graphql
  import opened Extensions
  import Redaction

  const KeySource: string := "graphql.source"
  const KeyVariables: string := "graphql.variables"
  const KeyParentType: string := "graphql.parentType"
  const KeyReturnType: string := "graphql.returnType"
  const KeyError: string := "graphql.error"
  const KeyComplexity: string := "graphql.complexity"
  const KeyDepth: string := "graphql.depth"

  const ErrorEventName: string := "error"

  datatype AttributeValue = StringValue(text: string) | I64Value(number: int)
  datatype KeyValue = KeyValue(key: string, value: AttributeValue)
  datatype Event = Event(name: string, attributes: seq<KeyValue>)
  datatype SpanKind = Server

  /** A span as recorded: its name, kind, attributes and events. */
  datatype Span = Span(name: string, kind: SpanKind, attributes: seq<KeyValue>, events: seq<Event>)

  /** Attributes set and events added on the span that was current. */
  datatype SpanUpdate = SpanUpdate(attributes: seq<KeyValue>, events: seq<Event>)

  const NoUpdate: SpanUpdate := SpanUpdate([], [])

  datatype Telemetry = Telemetry(ended: seq<Span>, onCurrent: SpanUpdate)

  /** A result together with the telemetry of the computation that produced it. */
  datatype Traced<T> = Traced(value: T, telemetry: Telemetry)

  function Record(span: Span, update: SpanUpdate): Span {
    span.(attributes := span.attributes + update.attributes, events := span.events + update.events)
  }

  /** Record `update` on the current span after the computation of `t`. */
  function Observe(t: Telemetry, update: SpanUpdate): Telemetry {
    t.(onCurrent := SpanUpdate(t.onCurrent.attributes + update.attributes, t.onCurrent.events + update.events))
  }

  /** Run the computation of `t` with `span` current: `span` ends last, holding what was set on it. */
  function WithSpan(span: Span, t: Telemetry): Telemetry {
    Telemetry(t.ended + [Record(span, t.onCurrent)], NoUpdate)
  }

  function ServerSpan(name: string, attributes: seq<KeyValue>): Span {
    Span(name, Server, attributes, [])
  }

  const I64Limit: int := 0x8000_0000_0000_0000

  /** `x as i64` for a 64-bit `usize`: two's complement reinterpretation. */
  function AsI64(x: Usize): (i: int)
    ensures -I64Limit <= i < I64Limit
    ensures i % UsizeLimit == x
    ensures x < I64Limit ==> i == x
  {
    if x < I64Limit then x else x - UsizeLimit
  }

  /**
    `r` is the result of running `inner` inside exactly one new server span
    named `name` that started with `attributes`: the value is passed through,
    the spans `inner` ended are kept in order, the new span ends after them
    holding what `inner` recorded on it, and nothing reaches the enclosing span.
  */
  predicate WrapsInSpan<T(==)>(r: Traced<T>, inner: Traced<T>, name: string, attributes: seq<KeyValue>) {
    var n := |inner.telemetry.ended|;
    && r.value == inner.value
    && |r.telemetry.ended| == n + 1
    && r.telemetry.ended[..n] == inner.telemetry.ended
    && r.telemetry.ended[n].name == name
    && r.telemetry.ended[n].kind == Server
    && r.telemetry.ended[n].attributes == attributes + inner.telemetry.onCurrent.attributes
    && r.telemetry.ended[n].events == inner.telemetry.onCurrent.events
    && r.telemetry.onCurrent == NoUpdate
  }

  lemma WithSpanWraps<T>(inner: Traced<T>, name: string, attributes: seq<KeyValue>)
    ensures WrapsInSpan(Traced(inner.value, WithSpan(ServerSpan(name, attributes), inner.telemetry)), inner, name, attributes)
  {
    var t := inner.telemetry;
    assert (t.ended + [Record(ServerSpan(name, attributes), t.onCurrent)])[..|t.ended|] == t.ended;
  }

  /** The last span a computation ended: the hook's own span when it opened one. */
  function LastEnded(t: Telemetry): Span
    requires |t.ended| > 0
  {
    t.ended[|t.ended| - 1]
  }

  // ----- the hooks -----

  /** `request`: the whole request runs inside a `request` span. */
  function Request<C, T(==)>(ctx: C, next: C -> Traced<T>): (r: Traced<T>)
    ensures WrapsInSpan(r, next(ctx), "request", [])
  {
    var inner := next(ctx);
    WithSpanWraps(inner, "request", []);
    Traced(inner.value, WithSpan(ServerSpan("request", []), inner.telemetry))
  }

  /** `subscribe`: one `subscribe` span covers the stream `next` returns. */
  function Subscribe<C, T(==)>(ctx: C, stream: Traced<T>, next: (C, Traced<T>) -> Traced<T>): (r: Traced<T>)
    ensures WrapsInSpan(r, next(ctx, stream), "subscribe", [])
  {
    var inner := next(ctx, stream);
    WithSpanWraps(inner, "subscribe", []);
    Traced(inner.value, WithSpan(ServerSpan("subscribe", []), inner.telemetry))
  }

  function SourceAttribute(source: string): KeyValue {
    KeyValue(KeySource, StringValue(source))
  }

  function VariablesAttribute(variables: Variables, toJsonString: map<string, Redaction.Json> -> Option<string>): KeyValue {
    KeyValue(KeyVariables, StringValue(Redaction.SerializeVariables(variables, toJsonString)))
  }

  /** What parse records on its span after `next`: the printed document, on success only. */
  function SourceUpdate<C, D>(ctx: C, result: ServerResult<D>, variables: Variables, stringify: (C, D, Variables) -> string)
    : SpanUpdate
  {
    if result.Ok? then SpanUpdate([SourceAttribute(stringify(ctx, result.value, variables))], []) else NoUpdate
  }

  /**
    `parse_query`: a `parse` span starts with the redacted variables; once
    `next` has parsed the document, its printed form `stringify(ctx, doc,
    variables)` is set on that span as `graphql.source`.
  */
  function ParseQuery<C, D(==)>(
    ctx: C, query: string, variables: Variables,
    next: (C, string, Variables) -> Traced<ServerResult<D>>,
    stringify: (C, D, Variables) -> string,
    toJsonString: map<string, Redaction.Json> -> Option<string>): (r: Traced<ServerResult<D>>)
    ensures
      var inner := next(ctx, query, variables);
      var observed := Traced(inner.value, Observe(inner.telemetry, SourceUpdate(ctx, inner.value, variables, stringify)));
      WrapsInSpan(r, observed, "parse", [VariablesAttribute(variables, toJsonString)])
  {
    var inner := next(ctx, query, variables);
    var observed := Observe(inner.telemetry, SourceUpdate(ctx, inner.value, variables, stringify));
    WithSpanWraps(Traced(inner.value, observed), "parse", [VariablesAttribute(variables, toJsonString)]);
    Traced(inner.value, WithSpan(ServerSpan("parse", [VariablesAttribute(variables, toJsonString)]), observed))
  }

  function ValidationAttributes(result: ValidationResult): SpanUpdate {
    SpanUpdate([KeyValue(KeyComplexity, I64Value(AsI64(result.complexity))),
                KeyValue(KeyDepth, I64Value(AsI64(result.depth)))], [])
  }

  /**
    `validation` AS WRITTEN: the attribute-setting `map_ok` wraps the
    future that holds the `validation` span, so it runs after that span has
    ended and sets `complexity` and `depth` on the enclosing current span.
  */
  function ValidationAsWritten<C>(ctx: C, next: C -> Traced<Result<ValidationResult, seq<ServerError>>>)
    : (r: Traced<Result<ValidationResult, seq<ServerError>>>)
    ensures WrapsInSpan(r.(telemetry := r.telemetry.(onCurrent := NoUpdate)), next(ctx), "validation", [])
    ensures r.telemetry.onCurrent == ValidationUpdate(r.value)
  {
    var inner := next(ctx);
    WithSpanWraps(inner, "validation", []);
    Traced(inner.value, Observe(WithSpan(ServerSpan("validation", []), inner.telemetry), ValidationUpdate(inner.value)))
  }

  function ValidationUpdate(result: Result<ValidationResult, seq<ServerError>>): SpanUpdate {
    if result.Ok? then ValidationAttributes(result.value) else NoUpdate
  }

  /** `validation` as evidently intended: `complexity` and `depth` go on the `validation` span. */
  function Validation<C>(ctx: C, next: C -> Traced<Result<ValidationResult, seq<ServerError>>>)
    : (r: Traced<Result<ValidationResult, seq<ServerError>>>)
    ensures
      var inner := next(ctx);
      var observed := Traced(inner.value, Observe(inner.telemetry, ValidationUpdate(inner.value)));
      WrapsInSpan(r, observed, "validation", [])
  {
    var inner := next(ctx);
    var observed := Observe(inner.telemetry, ValidationUpdate(inner.value));
    WithSpanWraps(Traced(inner.value, observed), "validation", []);
    Traced(inner.value, WithSpan(ServerSpan("validation", []), observed))
  }

  /** `execute`: execution runs inside an `execute` span. */
  function Execute<C, T(==)>(ctx: C, operationName: Option<string>, next: (C, Option<string>) -> Traced<T>): (r: Traced<T>)
    ensures WrapsInSpan(r, next(ctx, operationName), "execute", [])
  {
    var inner := next(ctx, operationName);
    WithSpanWraps(inner, "execute", []);
    Traced(inner.value, WithSpan(ServerSpan("execute", []), inner.telemetry))
  }

  function ErrorEvent(err: ServerError): Event {
    Event(ErrorEventName, [KeyValue(KeyError, StringValue(err.message))])
  }

  function ResolveAttributes(info: ResolveInfo): seq<KeyValue> {
    [KeyValue(KeyParentType, StringValue(info.parentType)),
     KeyValue(KeyReturnType, StringValue(info.returnType))]
  }

  /** What `inspect_err` records on the current span: one `error` event on failure, nothing on success. */
  function ErrorUpdate<T>(result: ServerResult<T>): SpanUpdate {
    if result.Err? then SpanUpdate([], [ErrorEvent(result.error)]) else NoUpdate
  }

  /**
    `resolve`: a field that is not for introspection gets its own span, named
    after its path; a failure adds one `error` event to whichever span is
    current, the field's own when it has one.
  */
  function Resolve<C, T(==)>(ctx: C, info: ResolveInfo, next: (C, ResolveInfo) -> Traced<ServerResult<T>>)
    : (r: Traced<ServerResult<T>>)
    ensures
      var inner := next(ctx, info);
      var observed := Traced(inner.value, Observe(inner.telemetry, ErrorUpdate(inner.value)));
      if info.isForIntrospection then r == observed
      else WrapsInSpan(r, observed, info.pathNode, ResolveAttributes(info))
  {
    var inner := next(ctx, info);
    var observed := Observe(inner.telemetry, ErrorUpdate(inner.value));
    WithSpanWraps(Traced(inner.value, observed), info.pathNode, ResolveAttributes(info));
    if !info.isForIntrospection then
      Traced(inner.value, WithSpan(ServerSpan(info.pathNode, ResolveAttributes(info)), observed))
    else
      Traced(inner.value, observed)
  }

  /**
    The extension as the program installs it, as a value of the phase-hook
    interface: its validation hook is the one as written.
  */
  function OpenTelemetry<C, D(==), S(==)>(
    stringify: (C, D, Variables) -> string,
    toJsonString: map<string, Redaction.Json> -> Option<string>)
    : Extension<C, Traced<Response>, Traced<S>, Traced<ServerResult<D>>,
                Traced<Result<ValidationResult, seq<ServerError>>>, Traced<ServerResult<Option<ConstValue>>>>
  {
    Extension(
      (ctx, next: C -> Traced<Response>) => Request(ctx, next),
      (ctx, stream, next: (C, Traced<S>) -> Traced<S>) => Subscribe(ctx, stream, next),
      (ctx, query, variables, next: (C, string, Variables) -> Traced<ServerResult<D>>) =>
        ParseQuery(ctx, query, variables, next, stringify, toJsonString),
      (ctx, next: C -> Traced<Result<ValidationResult, seq<ServerError>>>) => ValidationAsWritten(ctx, next),
      (ctx, operationName, next: (C, Option<string>) -> Traced<Response>) => Execute(ctx, operationName, next),
      (ctx, info, next: (C, ResolveInfo) -> Traced<ServerResult<Option<ConstValue>>>) => Resolve(ctx, info, next))
  }

  /** The extension with the corrected validation hook; every other hook is the installed one's. */
  function OpenTelemetryCorrected<C, D(==), S(==)>(
    stringify: (C, D, Variables) -> string,
    toJsonString: map<string, Redaction.Json> -> Option<string>)
    : Extension<C, Traced<Response>, Traced<S>, Traced<ServerResult<D>>,
                Traced<Result<ValidationResult, seq<ServerError>>>, Traced<ServerResult<Option<ConstValue>>>>
  {
    OpenTelemetry<C, D, S>(stringify, toJsonString).(
      validation := (ctx, next: C -> Traced<Result<ValidationResult, seq<ServerError>>>) => Validation(ctx, next))
  }

  // ----- properties -----

  /** Each hook of the installed extension is the hook function above, validation as written. */
  lemma InstalledHooks<C, D, S>(
    stringify: (C, D, Variables) -> string,
    toJsonString: map<string, Redaction.Json> -> Option<string>,
    ctx: C, info: ResolveInfo, query: string, variables: Variables, operationName: Option<string>,
    stream: Traced<S>,
    nextRequest: C -> Traced<Response>,
    nextSubscribe: (C, Traced<S>) -> Traced<S>,
    nextParse: (C, string, Variables) -> Traced<ServerResult<D>>,
    nextValidation: C -> Traced<Result<ValidationResult, seq<ServerError>>>,
    nextExecute: (C, Option<string>) -> Traced<Response>,
    nextResolve: (C, ResolveInfo) -> Traced<ServerResult<Option<ConstValue>>>)
    ensures
      var e := OpenTelemetry<C, D, S>(stringify, toJsonString);
      && e.request(ctx, nextRequest) == Request(ctx, nextRequest)
      && e.subscribe(ctx, stream, nextSubscribe) == Subscribe(ctx, stream, nextSubscribe)
      && e.parseQuery(ctx, query, variables, nextParse) == ParseQuery(ctx, query, variables, nextParse, stringify, toJsonString)
      && e.validation(ctx, nextValidation) == ValidationAsWritten(ctx, nextValidation)
      && e.execute(ctx, operationName, nextExecute) == Execute(ctx, operationName, nextExecute)
      && e.resolve(ctx, info, nextResolve) == Resolve(ctx, info, nextResolve)
  {
  }

  /**
    The corrected extension differs from the installed one in its validation
    hook only, which puts `complexity` and `depth` on the `validation` span.
  */
  lemma CorrectedHooks<C, D, S>(
    stringify: (C, D, Variables) -> string,
    toJsonString: map<string, Redaction.Json> -> Option<string>,
    ctx: C, info: ResolveInfo, query: string, variables: Variables, operationName: Option<string>,
    stream: Traced<S>,
    nextRequest: C -> Traced<Response>,
    nextSubscribe: (C, Traced<S>) -> Traced<S>,
    nextParse: (C, string, Variables) -> Traced<ServerResult<D>>,
    nextValidation: C -> Traced<Result<ValidationResult, seq<ServerError>>>,
    nextExecute: (C, Option<string>) -> Traced<Response>,
    nextResolve: (C, ResolveInfo) -> Traced<ServerResult<Option<ConstValue>>>)
    ensures
      var e := OpenTelemetryCorrected<C, D, S>(stringify, toJsonString);
      var installed := OpenTelemetry<C, D, S>(stringify, toJsonString);
      && e.request(ctx, nextRequest) == installed.request(ctx, nextRequest)
      && e.subscribe(ctx, stream, nextSubscribe) == installed.subscribe(ctx, stream, nextSubscribe)
      && e.parseQuery(ctx, query, variables, nextParse) == installed.parseQuery(ctx, query, variables, nextParse)
      && e.validation(ctx, nextValidation) == Validation(ctx, nextValidation)
      && e.execute(ctx, operationName, nextExecute) == installed.execute(ctx, operationName, nextExecute)
      && e.resolve(ctx, info, nextResolve) == installed.resolve(ctx, info, nextResolve)
  {
  }

  /** Every hook, as installed or corrected, returns exactly what `next` returned. */
  lemma ObservationalTransparency<C, D, S>(
    stringify: (C, D, Variables) -> string,
    toJsonString: map<string, Redaction.Json> -> Option<string>,
    ctx: C, info: ResolveInfo, query: string, variables: Variables, operationName: Option<string>,
    stream: Traced<S>,
    nextRequest: C -> Traced<Response>,
    nextSubscribe: (C, Traced<S>) -> Traced<S>,
    nextParse: (C, string, Variables) -> Traced<ServerResult<D>>,
    nextValidation: C -> Traced<Result<ValidationResult, seq<ServerError>>>,
    nextExecute: (C, Option<string>) -> Traced<Response>,
    nextResolve: (C, ResolveInfo) -> Traced<ServerResult<Option<ConstValue>>>)
    ensures
      var e := OpenTelemetry<C, D, S>(stringify, toJsonString);
      && e.request(ctx, nextRequest).value == nextRequest(ctx).value
      && e.subscribe(ctx, stream, nextSubscribe).value == nextSubscribe(ctx, stream).value
      && e.parseQuery(ctx, query, variables, nextParse).value == nextParse(ctx, query, variables).value
      && e.validation(ctx, nextValidation).value == nextValidation(ctx).value
      && OpenTelemetryCorrected<C, D, S>(stringify, toJsonString).validation(ctx, nextValidation).value
           == nextValidation(ctx).value
      && e.execute(ctx, operationName, nextExecute).value == nextExecute(ctx, operationName).value
      && e.resolve(ctx, info, nextResolve).value == nextResolve(ctx, info).value
  {
  }

  /** A resolve span exists exactly when the field is not for introspection. */
  lemma ResolveSpanIffNotIntrospection<C, T>(ctx: C, info: ResolveInfo, next: (C, ResolveInfo) -> Traced<ServerResult<T>>)
    ensures
      var before := |next(ctx, info).telemetry.ended|;
      var r := Resolve(ctx, info, next);
      && (|r.telemetry.ended| == before + 1 <==> !info.isForIntrospection)
      && (|r.telemetry.ended| == before <==> info.isForIntrospection)
      && (!info.isForIntrospection ==>
            && LastEnded(r.telemetry).name == info.pathNode
            && LastEnded(r.telemetry).attributes[..2] == ResolveAttributes(info))
  {
    var r := Resolve(ctx, info, next);
    if !info.isForIntrospection {
      var inner := next(ctx, info);
      assert LastEnded(r.telemetry).attributes ==
        ResolveAttributes(info) + Observe(inner.telemetry, ErrorUpdate(inner.value)).onCurrent.attributes;
    }
  }

  /** Number of `error` events in `events`. */
  function CountErrorEvents(events: seq<Event>): nat {
    if events == [] then 0
    else CountErrorEvents(events[..|events| - 1]) + (if events[|events| - 1].name == ErrorEventName then 1 else 0)
  }

  lemma CountErrorEventsAppend(events: seq<Event>, e: Event)
    ensures CountErrorEvents(events + [e]) == CountErrorEvents(events) + (if e.name == ErrorEventName then 1 else 0)
  {
    assert (events + [e])[..|events|] == events;
  }

  /** The events a resolution left on the span that was current for the field's work. */
  function FieldEvents<T>(r: Traced<T>, info: ResolveInfo): seq<Event>
    requires !info.isForIntrospection ==> |r.telemetry.ended| > 0
  {
    if info.isForIntrospection then r.telemetry.onCurrent.events else LastEnded(r.telemetry).events
  }

  /**
    On failure exactly one `error` event carrying the error's text is added to
    the current span (the field's own span when it has one); on success none.
  */
  lemma ResolveErrorEvent<C, T>(ctx: C, info: ResolveInfo, next: (C, ResolveInfo) -> Traced<ServerResult<T>>)
    ensures
      var inner := next(ctx, info);
      var r := Resolve(ctx, info, next);
      && (!info.isForIntrospection ==> |r.telemetry.ended| > 0)
      && (inner.value.Err? ==>
            FieldEvents(r, info) == inner.telemetry.onCurrent.events +
              [Event(ErrorEventName, [KeyValue(KeyError, StringValue(inner.value.error.message))])])
      && (inner.value.Ok? ==> FieldEvents(r, info) == inner.telemetry.onCurrent.events)
      && CountErrorEvents(FieldEvents(r, info)) ==
           CountErrorEvents(inner.telemetry.onCurrent.events) + (if inner.value.Err? then 1 else 0)
  {
    var inner := next(ctx, info);
    if inner.value.Err? {
      CountErrorEventsAppend(inner.telemetry.onCurrent.events, ErrorEvent(inner.value.error));
    } else {
      assert inner.telemetry.onCurrent.events + [] == inner.telemetry.onCurrent.events;
    }
  }

  /** When `next` set nothing on the span, `graphql.source` is on the `parse` span exactly when parsing succeeded. */
  lemma SourceOnlyOnSuccess<C, D>(
    ctx: C, query: string, variables: Variables,
    next: (C, string, Variables) -> Traced<ServerResult<D>>,
    stringify: (C, D, Variables) -> string,
    toJsonString: map<string, Redaction.Json> -> Option<string>)
    requires next(ctx, query, variables).telemetry.onCurrent == NoUpdate
    ensures
      var span := LastEnded(ParseQuery(ctx, query, variables, next, stringify, toJsonString).telemetry);
      && span.attributes[0] == VariablesAttribute(variables, toJsonString)
      && ((exists i :: 0 <= i < |span.attributes| && span.attributes[i].key == KeySource)
          <==> next(ctx, query, variables).value.Ok?)
  {
    var inner := next(ctx, query, variables);
    var span := LastEnded(ParseQuery(ctx, query, variables, next, stringify, toJsonString).telemetry);
    if inner.value.Ok? {
      assert span.attributes[1].key == KeySource;
    } else {
      assert span.attributes == [VariablesAttribute(variables, toJsonString)];
      assert KeyVariables != KeySource by {
        assert KeyVariables[8] != KeySource[8];
      }
    }
  }

  /** The finding, exhibited: as written, a successful validation leaves its own span without attributes. */
  lemma ValidationAttributesMisplaced(ctx: int)
    ensures
      var next := (c: int) => Traced(Ok(ValidationResult(7, 3)), Telemetry([], NoUpdate));
      var written := ValidationAsWritten(ctx, next);
      var intended := Validation(ctx, next);
      && LastEnded(written.telemetry) == ServerSpan("validation", [])
      && written.telemetry.onCurrent.attributes ==
           [KeyValue(KeyComplexity, I64Value(7)), KeyValue(KeyDepth, I64Value(3))]
      && LastEnded(intended.telemetry).attributes ==
           [KeyValue(KeyComplexity, I64Value(7)), KeyValue(KeyDepth, I64Value(3))]
  {
  }

  /** As intended, `complexity` and `depth` are on the `validation` span exactly when validation succeeded. */
  lemma ValidationAttributesOnlyOnSuccess<C>(ctx: C, next: C -> Traced<Result<ValidationResult, seq<ServerError>>>)
    requires next(ctx).telemetry.onCurrent == NoUpdate
    ensures
      var span := LastEnded(Validation(ctx, next).telemetry);
      && (next(ctx).value.Ok? ==> span.attributes == ValidationAttributes(next(ctx).value.value).attributes)
      && (next(ctx).value.Err? ==> span.attributes == [])
  {
  }
}
