/**
  A decorator over another extension that leaves selected field
  resolutions uninstrumented: every hook delegates to the wrapped extension,
  except that `resolve` runs `next` directly, bypassing the wrapped
  extension, when the exclusion filter holds for the field.
*/
module ResolveFilter {
  import opened Wrappers
  import opened Graphql
  import opened Extensions

  /** The wrapped extension and the exclusion filter, both shared (`Arc`) between clones. */
  datatype ResolveFilterExtension<!C, !R, !S, !P, !W, !F> = ResolveFilterExtension(
    inner: Extension<C, R, S, P, W, F>,
    excludeFilter: ResolveInfo -> bool)
  {
    /** `ExtensionFactory::create`: a clone sharing the same inner extension and filter. */
    function Create(): (e: ResolveFilterExtension<C, R, S, P, W, F>)
      ensures e.inner == inner && e.excludeFilter == excludeFilter
    {
      this
    }

    function Request(ctx: C, next: C -> R): R {
      inner.request(ctx, next)
    }

    function Subscribe(ctx: C, stream: S, next: (C, S) -> S): S {
      inner.subscribe(ctx, stream, next)
    }

    function ParseQuery(ctx: C, query: string, variables: Variables, next: (C, string, Variables) -> P): P {
      inner.parseQuery(ctx, query, variables, next)
    }

    function Validation(ctx: C, next: C -> W): W {
      inner.validation(ctx, next)
    }

    function Execute(ctx: C, operationName: Option<string>, next: (C, Option<string>) -> R): R {
      inner.execute(ctx, operationName, next)
    }

    /** The filter is asked once; when it holds, the wrapped extension's `resolve` is not run. */
    function Resolve(ctx: C, info: ResolveInfo, next: (C, ResolveInfo) -> F): (r: F)
      ensures excludeFilter(info) ==> r == next(ctx, info)
      ensures !excludeFilter(info) ==> r == inner.resolve(ctx, info, next)
    {
      if excludeFilter(info) then next(ctx, info) else inner.resolve(ctx, info, next)
    }

    /** The decorator as a value of the phase-hook interface. */
    function AsExtension(): Extension<C, R, S, P, W, F> {
      Extension(
        (ctx, next) => Request(ctx, next),
        (ctx, stream, next) => Subscribe(ctx, stream, next),
        (ctx, query, variables, next) => ParseQuery(ctx, query, variables, next),
        (ctx, next) => Validation(ctx, next),
        (ctx, operationName, next) => Execute(ctx, operationName, next),
        (ctx, info, next) => Resolve(ctx, info, next))
    }
  }

  /** `new`: both arguments are stored as given. */
  function New<C, R, S, P, W, F>(extension: Extension<C, R, S, P, W, F>, excludeFilter: ResolveInfo -> bool)
    : (e: ResolveFilterExtension<C, R, S, P, W, F>)
    ensures e.inner == extension && e.excludeFilter == excludeFilter
  {
    ResolveFilterExtension(extension, excludeFilter)
  }

  /** The five other hooks delegate with the same arguments, whatever the filter says of anything. */
  lemma OtherHooksDelegate<C, R, S, P, W, F>(
    e: ResolveFilterExtension<C, R, S, P, W, F>,
    ctx: C, stream: S, query: string, variables: Variables, operationName: Option<string>,
    nextRequest: C -> R, nextSubscribe: (C, S) -> S, nextParse: (C, string, Variables) -> P,
    nextValidation: C -> W, nextExecute: (C, Option<string>) -> R)
    ensures
      var d := e.AsExtension();
      && d.request(ctx, nextRequest) == e.inner.request(ctx, nextRequest)
      && d.subscribe(ctx, stream, nextSubscribe) == e.inner.subscribe(ctx, stream, nextSubscribe)
      && d.parseQuery(ctx, query, variables, nextParse) == e.inner.parseQuery(ctx, query, variables, nextParse)
      && d.validation(ctx, nextValidation) == e.inner.validation(ctx, nextValidation)
      && d.execute(ctx, operationName, nextExecute) == e.inner.execute(ctx, operationName, nextExecute)
  {
  }

  /** An excluded field's result does not depend on the wrapped extension's `resolve` at all. */
  lemma ExcludedIgnoresInner<C, R, S, P, W, F>(
    e: ResolveFilterExtension<C, R, S, P, W, F>, other: Extension<C, R, S, P, W, F>,
    ctx: C, info: ResolveInfo, next: (C, ResolveInfo) -> F)
    requires e.excludeFilter(info)
    ensures e.AsExtension().resolve(ctx, info, next) == e.(inner := other).AsExtension().resolve(ctx, info, next)
    ensures e.AsExtension().resolve(ctx, info, next) == next(ctx, info)
  {
  }

  /** An always-true filter makes the decorator's `resolve` run `next` on every field. */
  lemma AlwaysExclude<C, R, S, P, W, F>(inner: Extension<C, R, S, P, W, F>, ctx: C, info: ResolveInfo, next: (C, ResolveInfo) -> F)
    ensures New(inner, (i: ResolveInfo) => true).AsExtension().resolve(ctx, info, next) == next(ctx, info)
  {
  }

  /** An always-false filter makes the decorator's `resolve` the wrapped extension's. */
  lemma NeverExclude<C, R, S, P, W, F>(inner: Extension<C, R, S, P, W, F>, ctx: C, info: ResolveInfo, next: (C, ResolveInfo) -> F)
    ensures New(inner, (i: ResolveInfo) => false).AsExtension().resolve(ctx, info, next) == inner.resolve(ctx, info, next)
  {
  }

  /** Every per-request instance behaves as the factory itself does on every hook. */
  lemma CreatedInstancesShareBehaviour<C, R, S, P, W, F>(
    e: ResolveFilterExtension<C, R, S, P, W, F>, ctx: C, info: ResolveInfo, next: (C, ResolveInfo) -> F)
    ensures e.Create().Create() == e.Create()
    ensures e.Create().AsExtension().resolve(ctx, info, next) == e.AsExtension().resolve(ctx, info, next)
  {
  }
}
