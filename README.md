# GraphQL tracing instrumentation — a Dafny model

This project models the instrumentation layer of a Rust web toolkit. The layer sits on a GraphQL engine and does five things:

- **Credential redaction** (`Redaction`): before the request's variables are recorded as the `graphql.variables` span attribute, the value of every key containing one of ten credential keywords becomes `"<secret>"`, at every depth. A binary value becomes `"<binary len=N>"` and an enum becomes its name.
- **Span rules of the OpenTelemetry extension** (`Tracing`): which span each phase hook (request, subscribe, parse, validation, execute, resolve) opens, and which attributes and events it records, depending on what the rest of the pipeline returned. The tracer is not modelled. A span is the record of its name, kind, attributes and events. A computation's telemetry is the list of spans it ended plus what it set on the span that was current while it ran.
- **The phase-hook interface** (`Extensions`): a datatype of six hook functions, each taking `next`, the rest of the chain.
- **The resolve filter** (`ResolveFilter`, `FilteredTracing`): a decorator that delegates every hook to a wrapped extension. The exception is `resolve`, which runs `next` directly when an exclusion filter holds for the field.
- **The error-report collector** (`SentryReport`): after execution, a response with errors gets a `graphql` scope context. It holds the dot-joined paths of the errors that have a path, aligned with their messages. The first error's message is logged. The collector is written as methods with loops, as the source is, and each method is proved equal to specification functions.
- **Trace-context capture** (`TraceContext`, `TraceContextAxum`): the `traceparent` and `tracestate` request headers of the W3C Trace Context Recommendation (sections 3.2 and 3.3) are captured into a two-field record. The record answers the propagator's `get` and `keys`.

Shared modules: `Wrappers` (Option, Result), `Decimal` (printing a number in decimal, with its parse-back round trip) and `Graphql` (the engine's value, error, response and field-descriptor types).

In four places the code behaves differently from what a reader might expect. The model follows the code:

- The top-level variable map is collected into an unordered map.
- `complexity` and `depth` land on the enclosing span, not on the `validation` span (see Findings).
- `keys` returns values (see Findings).
- Header names are matched after the HTTP library has lower-cased them.

## Model

| member | source | states |
|---|---|---|
| `Decimal.NatToString` | async_graphql_sentry_extension.rs:42-44 | printing an index gives a non-empty digit string, `"0"` exactly for zero, otherwise no leading zero |
| `Decimal.ParseNatToString` | async_graphql_sentry_extension.rs:42-44 | reading the printed digits back gives the number |
| `Decimal.NatToStringInjective` | async_graphql_sentry_extension.rs:42-44 | distinct indices print differently |
| `Redaction.ContainsIsSubstring` | async_graphql_extensions_opentelemetry.rs:223 | `contains` holds exactly when the keyword occurs at some position of the key (case-sensitive) |
| `Redaction.AnyMatchesIsContains` | async_graphql_extensions_opentelemetry.rs:222-224 | `any(k == key \|\| key.contains(k))` is the same as "some keyword is contained"; the `==` disjunct is subsumed |
| `Redaction.IsCredentialIff` | async_graphql_extensions_opentelemetry.rs:209-224 | a key is credential-like exactly when one of the ten keywords is a substring of it |
| `Redaction.CredentialExamples` | async_graphql_extensions_opentelemetry.rs:209-224 | `password`, `userpassword` and `apiKey` are credential-like |
| `Redaction.NonCredentialExample` | async_graphql_extensions_opentelemetry.rs:209-224 | `name` is not credential-like |
| `Redaction.VariablesRedacted` | async_graphql_extensions_opentelemetry.rs:226-237 | the top-level map keeps every variable name; a credential-like name maps to `"<secret>"` whatever its value's type; any other is redacted recursively |
| `Redaction.SerializeVariables` | async_graphql_extensions_opentelemetry.rs:238-242 | a successful print of the redacted map returns its text; a failed print returns the literal failure text, never an error |
| `Redaction.VariableSecretsDoNotInfluence` | async_graphql_extensions_opentelemetry.rs:226-243 | two variable sets that agree outside credential keys and binary bytes print identically, for any printer |
| `Redaction.LeafRules` | async_graphql_extensions_opentelemetry.rs:250-254 | null, boolean, string and number pass through; an enum becomes the string of its name |
| `Redaction.BinaryShowsOnlyLength` | async_graphql_extensions_opentelemetry.rs:247-249 | a binary value becomes its placeholder, so two binaries of the same length give the same output |
| `Redaction.BinaryPlaceholderStatesLength` | async_graphql_extensions_opentelemetry.rs:248 | the placeholder is `<binary len=`, the decimal length, `>`, and the length reads back |
| `Redaction.ObjectShape` | async_graphql_extensions_opentelemetry.rs:255-268 | an object gives an object with the same key set; credential-like keys hold `"<secret>"`, others the recursive redaction |
| `Redaction.ListShape` | async_graphql_extensions_opentelemetry.rs:269-272 | a list gives an array of the same length with element i redacting element i |
| `Redaction.SerializeAt` | async_graphql_extensions_opentelemetry.rs:245-274 | following a path of non-credential keys and positions through the output reaches the redaction of what the path reaches in the input |
| `Redaction.SecretAtAnyDepth` | async_graphql_extensions_opentelemetry.rs:255-267 | inside an object at any depth, a credential-like key's value in the output is `"<secret>"` |
| `Redaction.SecretsDoNotInfluence` | async_graphql_extensions_opentelemetry.rs:245-274 | values that agree except under credential keys and inside binaries (same length) redact identically, so no secret or byte reaches the output |
| `Redaction.RedactionIsIdentityWhenNothingToHide` | async_graphql_extensions_opentelemetry.rs:250-272 | with no credential-like key and no binary at any depth, the output is the value's plain JSON embedding |
| `Tracing.AsI64` | async_graphql_extensions_opentelemetry.rs:146-147 | `usize as i64` lands in the i64 range, is congruent to the input modulo 2^64, and keeps values below 2^63 |
| `Tracing.Request` | async_graphql_extensions_opentelemetry.rs:68-77 | the response passes through; exactly one new `request` server span ends after every span of the rest of the chain and holds what was set on it |
| `Tracing.Subscribe` | async_graphql_extensions_opentelemetry.rs:79-94 | the stream passes through; exactly one `subscribe` span covers it |
| `Tracing.ParseQuery` | async_graphql_extensions_opentelemetry.rs:96-129 | the result passes through; one `parse` span starts with the redacted variables and gets `graphql.source` after a successful parse only |
| `Tracing.ValidationAsWritten` | async_graphql_extensions_opentelemetry.rs:131-151 | as written: the result passes through and one `validation` span is ended; `complexity` and `depth` go to the enclosing span, on success only |
| `Tracing.Validation` | async_graphql_extensions_opentelemetry.rs:131-151 | corrected: `complexity` and `depth` go on the `validation` span, on success only |
| `Tracing.Execute` | async_graphql_extensions_opentelemetry.rs:153-167 | the response passes through; exactly one `execute` span |
| `Tracing.Resolve` | async_graphql_extensions_opentelemetry.rs:169-206 | the result passes through; a field not for introspection gets one span named after its path, carrying parent and return type; a failure records one `error` event on the current span |
| `Tracing.InstalledHooks` | async_graphql_extensions_opentelemetry.rs:62-207 | the installed extension value's six hooks are `Request`, `Subscribe`, `ParseQuery`, `ValidationAsWritten`, `Execute` and `Resolve` |
| `Tracing.CorrectedHooks` | async_graphql_extensions_opentelemetry.rs:131-151 | the corrected extension value agrees with the installed one on every hook except validation, which is the corrected `Validation` |
| `Tracing.ObservationalTransparency` | async_graphql_extensions_opentelemetry.rs:68-206 | every hook of the installed extension, and the corrected validation hook, returns exactly what `next` returned |
| `Tracing.ResolveSpanIffNotIntrospection` | async_graphql_extensions_opentelemetry.rs:175-189 | a resolve span is created exactly when `is_for_introspection` is false, named after the path, starting with `parentType` then `returnType` |
| `Tracing.ResolveErrorEvent` | async_graphql_extensions_opentelemetry.rs:191-205 | on failure exactly one `error` event carrying the error text is added to the field's span (or the enclosing one for introspection); on success none |
| `Tracing.SourceOnlyOnSuccess` | async_graphql_extensions_opentelemetry.rs:104-124 | when `next` set nothing on the current span, the `parse` span's first attribute is the variables, and it carries `graphql.source` exactly when the parse succeeded |
| `Tracing.ValidationAttributesMisplaced` | async_graphql_extensions_opentelemetry.rs:141-150 | a successful validation leaves the as-written `validation` span bare and puts the attributes on the enclosing span; the corrected hook puts them on its own span |
| `Tracing.ValidationAttributesOnlyOnSuccess` | async_graphql_extensions_opentelemetry.rs:143-149 | when `next` set nothing on the current span, the corrected `validation` span has exactly `complexity` and `depth` on success and no attributes on failure |
| `ResolveFilter.New` | async_graphql_resolve_filter_extension.rs:20-29 | both the wrapped extension and the filter are stored as given |
| `ResolveFilter.ResolveFilterExtension.Create` | async_graphql_resolve_filter_extension.rs:31-35 | each per-request instance shares the same wrapped extension and filter |
| `ResolveFilter.ResolveFilterExtension.Resolve` | async_graphql_resolve_filter_extension.rs:79-90 | when the filter holds the result is `next`'s; otherwise it is the wrapped extension's `resolve` with the same arguments |
| `ResolveFilter.OtherHooksDelegate` | async_graphql_resolve_filter_extension.rs:40-77 | request, subscribe, parse, validation and execute equal the wrapped extension's hooks on the same arguments, whatever the filter |
| `ResolveFilter.ExcludedIgnoresInner` | async_graphql_resolve_filter_extension.rs:85-87 | for an excluded field, replacing the wrapped extension changes nothing: its `resolve` is not run |
| `ResolveFilter.AlwaysExclude` | async_graphql_resolve_filter_extension.rs:85-87 | an always-true filter makes `resolve` equal to `next` on every field |
| `ResolveFilter.NeverExclude` | async_graphql_resolve_filter_extension.rs:89 | an always-false filter makes `resolve` equal to the wrapped extension's |
| `ResolveFilter.CreatedInstancesShareBehaviour` | async_graphql_resolve_filter_extension.rs:31-35 | creating again gives the same instance, and an instance resolves as the factory does |
| `FilteredTracing.ExcludedFieldIsUntraced` | async_graphql_resolve_filter_extension.rs:85-87 | wrapped around the OpenTelemetry extension, an excluded field gets no span and no event: its result and telemetry are `next`'s |
| `FilteredTracing.IncludedFieldIsTraced` | async_graphql_resolve_filter_extension.rs:89 | a field that is neither excluded nor for introspection gets exactly one span named after its path |
| `SentryReport.RenderPathText` | async_graphql_sentry_extension.rs:36-49 | the inner loop builds exactly the dot-joined rendering of the path |
| `SentryReport.CollectErrors` | async_graphql_sentry_extension.rs:31-56 | the outer loop yields exactly the rendered paths and messages of the errors with a path, and the first error's message |
| `SentryReport.Execute` | async_graphql_sentry_extension.rs:20-70 | the response of `next` is returned unchanged; a report exists exactly when the response has errors and then logs the first error's message |
| `SentryReport.PathedPositionsExact` | async_graphql_sentry_extension.rs:34-52 | the collected positions are in range, ascending, and exactly those of errors with a non-empty path |
| `SentryReport.ListsFollowPositions` | async_graphql_sentry_extension.rs:34-52 | entry k of `paths` and of `errors` both come from the error at the k-th collected position |
| `SentryReport.CollectedListsAligned` | async_graphql_sentry_extension.rs:34-52 | the two lists have the same length and pair up error by error, in error order, skipping exactly the errors without a path |
| `SentryReport.EmptyPathAddsNothing` | async_graphql_sentry_extension.rs:35 | an error with an empty path adds nothing to either list |
| `SentryReport.DefaultNeverUsedOnError` | async_graphql_sentry_extension.rs:53-65 | once there is an error the default `GraphqlError` is not used: the first error's message is |
| `SentryReport.RenderPathEnds` | async_graphql_sentry_extension.rs:37-49 | a rendered path starts with its first segment's text and ends with its last's, with no separator before or after |
| `SentryReport.SplitRenderPath` | async_graphql_sentry_extension.rs:36-49 | for a non-empty path whose field names contain no `.` (as GraphQL names do not), splitting the rendered path at its dots gives back the segments' texts (an index in decimal, a field as its name) |
| `SentryReport.RenderExample` | async_graphql_sentry_extension.rs:36-49 | `[field, 0, child]` renders as `field.0.child` |
| `SentryReport.WorkedExample` | async_graphql_sentry_extension.rs:34-56 | errors `[field,0,child]/"boom"` then `[]/"other"` give paths `["field.0.child"]`, messages `["boom"]` and representative `"boom"` |
| `TraceContext.New` | parent_trace_context.rs:11-13 | both options are stored as given |
| `TraceContext.ParentTraceContext.Get` | parent_trace_context.rs:21-29 | `traceparent` gives the parent, `tracestate` the state, any other key `None` |
| `TraceContext.GetIsCaseSensitive` | parent_trace_context.rs:21-29 | case variants such as `TraceParent` give `None` |
| `TraceContext.KeysListsPresentValues` | parent_trace_context.rs:31-37 | `keys` lists the present values, parent first; its length is the number of present fields; it is empty exactly when both are absent |
| `TraceContext.KeysAreNotHeaderNames` | parent_trace_context.rs:31-37 | with only a `traceparent`, `keys` returns its value, and `get` of that value is `None` |
| `TraceContext.HeaderKeysMatchGet` | parent_trace_context.rs:31-37 | the corrected enumeration holds a key exactly when `get` answers it, parent name first |
| `TraceContextAxum.HeaderText` | parent_trace_context_axum.rs:22-25 | the captured text is the header's bytes, character for byte |
| `TraceContextAxum.CollectPresentContents` | parent_trace_context_axum.rs:18-37 | collecting the filtered entries keeps exactly the keys whose value is present, and only present values |
| `TraceContextAxum.FromRequestParts` | parent_trace_context_axum.rs:13-39 | with readable header values, extraction always succeeds |
| `TraceContextAxum.CapturedHeaders` | parent_trace_context_axum.rs:18-37 | the map's keys are among the two names; a name is present exactly when the request has that header; the value is its text verbatim |
| `TraceContextAxum.OtherHeadersIgnored` | parent_trace_context_axum.rs:18-34 | requests that agree on the two headers give the same result, whatever other headers they carry |
| `TraceContextAxum.ToParentTraceContext` | parent_trace_context_axum.rs:56-62 | the parent is the captured `traceparent` or `None`, the state likewise from `tracestate` |
| `TraceContextAxum.ContextCarriesRequestHeaders` | parent_trace_context_axum.rs:56-62 | end to end, `get("traceparent")` and `get("tracestate")` return the request's header text or `None`; with neither header, `keys` is empty |

## Findings

| source | as written | input that shows it | evidently intended | confidence | as-written member | corrected member |
|---|---|---|---|---|---|---|
| async_graphql_extensions_opentelemetry.rs:141-150 | `map_ok` wraps the future that holds the `validation` span's context. Its closure runs after that span has ended, when the enclosing context is current, so `graphql.complexity` and `graphql.depth` are set on the enclosing span | a successful validation with complexity 7 and depth 3: the `validation` span ends with no attributes | the two attributes are set on the `validation` span, as `parse` does for `graphql.source` | medium; not executed | `Tracing.ValidationAsWritten`, `Tracing.ValidationAttributesMisplaced` | `Tracing.Validation`, `Tracing.ValidationAttributesOnlyOnSuccess`, `Tracing.CorrectedHooks` |
| parent_trace_context.rs:31-37 | `keys` returns the stored header values | only `traceparent: 00-4bf92f3577b34da6a3ce929d0e0e4736-00f067aa0ba902b7-01`: `keys()` is that value, and `get` of it is `None` | `keys` lists the names of the headers present, which `get` answers | medium; not executed | `TraceContext.KeysAreNotHeaderNames` | `TraceContext.HeaderKeysMatchGet` |

`Tracing.OpenTelemetry` is the extension value as the program installs it, with the validation hook as written. `Tracing.OpenTelemetryCorrected` is the same value with the corrected `Validation`. `TraceContext.ParentTraceContext.Keys` stays as written, since nothing else in the model enumerates keys; `HeaderKeys` is the corrected enumeration.

## Left out

- The tracer and the span backend are not modelled: span start and end times, the tracer handle held by `OpenTelemetry::new` and `create`, and the async context machinery (`with_context`, `Context::current`). A span is its final record. "Ended exactly once" shows only in the structure: each hook adds exactly one span to the list of ended spans, none for an introspection field, and keeps the spans of `next` in order.
- The spans' timing against suspension and cancellation, the concurrency of sibling field resolutions, and the laziness of the subscription stream are not modelled: they are about concurrency, not about values.
- `serde_json::to_string` is a parameter of `SerializeVariables`. It returns `None` when printing fails. JSON text and numeric formatting are not modelled: numbers are integers.
- `ParentTraceContext::get` (parent_trace_context.rs:15-17) is left out. It calls the global propagator, which parses the headers inside the OpenTelemetry library; that library is not part of this model.
- The error's display text (`err.to_string()`) is taken to be its message, and the field's path text (`path_node.to_string()`) is taken as given by the engine. The engine is not part of this model.
- `HeaderValue::to_str` is taken to accept visible ASCII and tab, following the HTTP library. Header names reach the lookup already lower-cased, so `get("traceparent")` finds a header sent with any capitalisation. The `unwrap` that panics on other bytes becomes the precondition `Readable`.
- `from_request_parts` (parent_trace_context_axum.rs:42-53) is the same function as `from_request_parts_impl`. Its future wrapper is not modelled.
- `SentryReport.Execute`: does not model `set_otel_sentry_scope`, which copies the trace and span identifiers into the reporting scope before `next` runs; sentry_otel.rs is not part of this model. The Sentry scope and the `tracing::error!` sink become the returned `ScopeReport`.
- `ResolveFilter.ResolveFilterExtension.Resolve`: cannot state that the filter is called exactly once, before any delegation, or that `next` runs exactly once. In a model of pure functions the number of calls is not observable. What is proved is that the result is fully determined by one filter answer.
- The key order of the engine's ordered object map is not kept. The redacted output is an unordered map.
- The engine, the extension chain's composition, logging and exporter setup (setup_tracing.rs, setup_async_graphql_tracing.rs), the database layer (db.rs) and the RFC 3339 timestamp scalar (date_time_rfc3339.rs) are not part of this model.
