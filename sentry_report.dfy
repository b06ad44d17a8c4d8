/**
  The error-reporting extension's `execute` hook: after `next` has produced
  the response, a response with errors gets a `graphql` scope context holding
  the dot-joined paths of the errors that have a path, aligned with their
  messages, and a representative message logged at error level.
*/
module SentryReport {
  import opened Wrappers
  import opened Graphql
  import Decimal

  const DefaultMessage: string := "GraphqlError"

  /** An index segment prints as its decimal value, a field segment as its name. */
  function SegmentText(segment: PathSegment): string {
    match segment
    case Index(index) => Decimal.NatToString(index)
    case Field(name) => name
  }

  /** The segments' texts joined by single dots. */
  function RenderPath(path: seq<PathSegment>): string
    decreases |path|
  {
    if |path| == 0 then ""
    else if |path| == 1 then SegmentText(path[0])
    else RenderPath(path[..|path| - 1]) + "." + SegmentText(path[|path| - 1])
  }

  /** The texts `RenderPath` joins, in path order. */
  function SegmentTexts(path: seq<PathSegment>): (texts: seq<string>)
    ensures |texts| == |path|
  {
    seq(|path|, i requires 0 <= i < |path| => SegmentText(path[i]))
  }

  /** The inner loop: renders one error's path into a fresh string. */
  method RenderPathText(path: seq<PathSegment>) returns (text: string)
    ensures text == RenderPath(path)
  {
    text := "";
    var idx := 0;
    while idx < |path|
      invariant 0 <= idx <= |path|
      invariant text == RenderPath(path[..idx])
    {
      assert path[..idx + 1][..idx] == path[..idx];
      if idx > 0 {
        text := text + ".";
      }
      text := text + SegmentText(path[idx]);
      idx := idx + 1;
    }
    assert path[..idx] == path;
  }

  /** The rendered paths of the errors that have a path, in error order. */
  function PathsOf(errors: seq<ServerError>): seq<string>
    decreases |errors|
  {
    if errors == [] then []
    else
      var last := errors[|errors| - 1];
      PathsOf(errors[..|errors| - 1]) + (if last.path != [] then [RenderPath(last.path)] else [])
  }

  /** The messages of the errors that have a path, in error order. */
  function MessagesOf(errors: seq<ServerError>): seq<string>
    decreases |errors|
  {
    if errors == [] then []
    else
      var last := errors[|errors| - 1];
      MessagesOf(errors[..|errors| - 1]) + (if last.path != [] then [last.message] else [])
  }

  /** The representative message: the first error's, whether or not it has a path. */
  function FirstMessage(errors: seq<ServerError>): Option<string> {
    if errors == [] then None else Some(errors[0].message)
  }

  /** The outer loop over the response's errors. */
  method CollectErrors(errors: seq<ServerError>) returns (paths: seq<string>, messages: seq<string>, errorMessage: Option<string>)
    ensures paths == PathsOf(errors)
    ensures messages == MessagesOf(errors)
    ensures errorMessage == FirstMessage(errors)
  {
    paths, messages, errorMessage := [], [], None;
    var i := 0;
    while i < |errors|
      invariant 0 <= i <= |errors|
      invariant paths == PathsOf(errors[..i])
      invariant messages == MessagesOf(errors[..i])
      invariant errorMessage == FirstMessage(errors[..i])
    {
      var err := errors[i];
      assert errors[..i + 1][..i] == errors[..i];
      if err.path != [] {
        var path := RenderPathText(err.path);
        paths := paths + [path];
        messages := messages + [err.message];
      }
      if errorMessage.None? {
        errorMessage := Some(err.message);
      }
      i := i + 1;
    }
    assert errors[..i] == errors;
  }

  /** What the hook leaves behind: the `graphql` scope context and the logged message. */
  datatype ScopeReport = ScopeReport(paths: seq<string>, errors: seq<string>, logged: string)

  /**
    `execute`: runs `next` once and returns its response unchanged; only a
    response with errors is reported, and then the logged message is the
    first error's.
  */
  method Execute<C>(ctx: C, operationName: Option<string>, next: (C, Option<string>) -> Response)
    returns (resp: Response, report: Option<ScopeReport>)
    ensures resp == next(ctx, operationName)
    ensures report.Some? <==> resp.IsErr()
    ensures report.Some? ==>
      report.value == ScopeReport(PathsOf(resp.errors), MessagesOf(resp.errors), resp.errors[0].message)
  {
    resp := next(ctx, operationName);
    if resp.IsErr() {
      var paths, errors, errorMessage := CollectErrors(resp.errors);
      var message := errorMessage.UnwrapOr(DefaultMessage);
      report := Some(ScopeReport(paths, errors, message));
    } else {
      report := None;
    }
  }

  // ----- properties of the collected lists -----

  /** The positions of the errors that have a path, ascending. */
  function PathedPositions(errors: seq<ServerError>): seq<nat>
    decreases |errors|
  {
    if errors == [] then []
    else
      PathedPositions(errors[..|errors| - 1]) +
        (if errors[|errors| - 1].path != [] then [|errors| - 1] else [])
  }

  /** The positions are in range, ascending, and are exactly those of the errors with a path. */
  lemma {:induction false} PathedPositionsExact(errors: seq<ServerError>)
    ensures
      var pos := PathedPositions(errors);
      && (forall k :: 0 <= k < |pos| ==> pos[k] < |errors| && errors[pos[k]].path != [])
      && (forall k, l :: 0 <= k < l < |pos| ==> pos[k] < pos[l])
      && (forall j :: 0 <= j < |errors| && errors[j].path != [] ==> j in pos)
    decreases |errors|
  {
    if errors != [] {
      var init := errors[..|errors| - 1];
      PathedPositionsExact(init);
      var initPos := PathedPositions(init);
      assert forall k :: 0 <= k < |initPos| ==> init[initPos[k]] == errors[initPos[k]];
      assert forall j :: 0 <= j < |init| ==> init[j] == errors[j];
    }
  }

  /** Entry k of both lists comes from the error at the k-th position with a path. */
  lemma {:induction false} ListsFollowPositions(errors: seq<ServerError>)
    ensures
      var pos := PathedPositions(errors);
      && |PathsOf(errors)| == |pos| && |MessagesOf(errors)| == |pos|
      && forall k :: 0 <= k < |pos| ==>
           pos[k] < |errors| &&
           PathsOf(errors)[k] == RenderPath(errors[pos[k]].path) &&
           MessagesOf(errors)[k] == errors[pos[k]].message
    decreases |errors|
  {
    if errors != [] {
      var init := errors[..|errors| - 1];
      ListsFollowPositions(init);
      var initPos := PathedPositions(init);
      assert forall k :: 0 <= k < |initPos| ==> init[initPos[k]] == errors[initPos[k]];
    }
  }

  /**
    The two lists are aligned: entry k of both comes from the same error, the
    k-th one that has a path; those errors are taken in order and no other.
  */
  lemma CollectedListsAligned(errors: seq<ServerError>)
    ensures
      var pos := PathedPositions(errors);
      && |PathsOf(errors)| == |pos| && |MessagesOf(errors)| == |pos|
      && (forall k :: 0 <= k < |pos| ==>
            pos[k] < |errors| && errors[pos[k]].path != [] &&
            PathsOf(errors)[k] == RenderPath(errors[pos[k]].path) &&
            MessagesOf(errors)[k] == errors[pos[k]].message)
      && (forall k, l :: 0 <= k < l < |pos| ==> pos[k] < pos[l])
      && (forall j :: 0 <= j < |errors| && errors[j].path != [] ==> j in pos)
  {
    PathedPositionsExact(errors);
    ListsFollowPositions(errors);
  }

  /** An error without a path adds nothing to either list. */
  lemma EmptyPathAddsNothing(errors: seq<ServerError>, err: ServerError)
    requires err.path == []
    ensures PathsOf(errors + [err]) == PathsOf(errors)
    ensures MessagesOf(errors + [err]) == MessagesOf(errors)
  {
    assert (errors + [err])[..|errors|] == errors;
  }

  /** Once the response has errors the default label is never logged. */
  lemma DefaultNeverUsedOnError(errors: seq<ServerError>)
    requires |errors| > 0
    ensures FirstMessage(errors).UnwrapOr(DefaultMessage) == errors[0].message
  {
  }

  // ----- path rendering -----

  /** A rendered path starts with its first segment's text and ends with its last's. */
  lemma {:induction false} RenderPathEnds(path: seq<PathSegment>)
    requires |path| > 0
    ensures SegmentText(path[0]) <= RenderPath(path)
    ensures |RenderPath(path)| >= |SegmentText(path[|path| - 1])|
    ensures RenderPath(path)[|RenderPath(path)| - |SegmentText(path[|path| - 1])|..] == SegmentText(path[|path| - 1])
    decreases |path|
  {
    if |path| > 1 {
      var init := path[..|path| - 1];
      RenderPathEnds(init);
      assert init[0] == path[0];
    }
  }

  /** Splitting a string at every `.` (so `"a..b"` gives `["a", "", "b"]` and `""` gives `[""]`). */
  function Split(s: string): (parts: seq<string>)
    ensures |parts| > 0
    decreases |s|
  {
    if s == [] then [""]
    else
      var init := Split(s[..|s| - 1]);
      var c := s[|s| - 1];
      if c == '.' then init + [""]
      else init[..|init| - 1] + [init[|init| - 1] + [c]]
  }

  /** One more character either starts a new part (a dot) or extends the last part. */
  lemma SplitSnoc(s: string, c: char)
    ensures
      var parts := Split(s);
      Split(s + [c]) == if c == '.' then parts + [""] else parts[..|parts| - 1] + [parts[|parts| - 1] + [c]]
  {
    assert (s + [c])[..|s|] == s;
  }

  lemma {:induction false} SplitAppendDotFree(s: string, t: string)
    requires '.' !in t
    ensures
      var parts := Split(s);
      Split(s + t) == parts[..|parts| - 1] + [parts[|parts| - 1] + t]
    decreases |t|
  {
    var parts := Split(s);
    var n := |parts|;
    if t == [] {
      assert s + t == s;
      assert parts[n - 1] + t == parts[n - 1];
      assert parts[..n - 1] + [parts[n - 1]] == parts;
    } else {
      var t' := t[..|t| - 1];
      var c := t[|t| - 1];
      assert t' + [c] == t;
      assert c in t;
      assert '.' !in t' by {
        assert forall x :: x in t' ==> x in t;
      }
      SplitAppendDotFree(s, t');
      var mid := Split(s + t');
      assert s + t == (s + t') + [c];
      SplitSnoc(s + t', c);
      assert mid[..|mid| - 1] == parts[..n - 1];
      assert mid[|mid| - 1] + [c] == parts[n - 1] + t;
    }
  }

  lemma SplitDotFree(t: string)
    requires '.' !in t
    ensures Split(t) == [t]
  {
    SplitAppendDotFree("", t);
    assert "" + t == t;
  }

  lemma SplitAfterDot(s: string, t: string)
    requires '.' !in t
    ensures Split(s + "." + t) == Split(s) + [t]
  {
    SplitAppendDotFree(s + ".", t);
    assert (s + ".")[..|s + "."| - 1] == s;
    var parts := Split(s + ".");
    assert parts == Split(s) + [""];
    assert parts[..|parts| - 1] == Split(s);
    assert "" + t == t;
  }

  /** No segment text contains a dot: field names never do, and numbers print as digits. */
  predicate DotFreeFields(path: seq<PathSegment>) {
    forall i :: 0 <= i < |path| && path[i].Field? ==> '.' !in path[i].name
  }

  lemma SegmentTextDotFree(path: seq<PathSegment>, i: int)
    requires DotFreeFields(path) && 0 <= i < |path|
    ensures '.' !in SegmentText(path[i])
  {
    if path[i].Index? {
      Decimal.NatToStringHasNoDot(path[i].index);
    }
  }

  lemma DotFreeFieldsInit(path: seq<PathSegment>)
    requires DotFreeFields(path) && |path| > 0
    ensures DotFreeFields(path[..|path| - 1])
  {
    var init := path[..|path| - 1];
    forall i | 0 <= i < |init| && init[i].Field?
      ensures '.' !in init[i].name
    {
      assert init[i] == path[i];
    }
  }

  lemma SegmentTextsSnoc(path: seq<PathSegment>)
    requires |path| > 0
    ensures SegmentTexts(path) == SegmentTexts(path[..|path| - 1]) + [SegmentText(path[|path| - 1])]
  {
  }

  /** Rendering is reversible: splitting a rendered path at its dots gives back the segments' texts. */
  lemma {:induction false} SplitRenderPath(path: seq<PathSegment>)
    requires |path| > 0
    requires DotFreeFields(path)
    ensures Split(RenderPath(path)) == SegmentTexts(path)
    decreases |path|
  {
    var n := |path|;
    SegmentTextDotFree(path, n - 1);
    if n == 1 {
      SplitDotFree(SegmentText(path[0]));
    } else {
      var init := path[..n - 1];
      DotFreeFieldsInit(path);
      SplitRenderPath(init);
      assert RenderPath(path) == RenderPath(init) + "." + SegmentText(path[n - 1]);
      SplitAfterDot(RenderPath(init), SegmentText(path[n - 1]));
      SegmentTextsSnoc(path);
    }
  }

  /** The path of the worked example: `field`, `0`, `child` renders as `field.0.child`. */
  lemma RenderExample()
    ensures RenderPath([Field("field"), Index(0), Field("child")]) == "field.0.child"
  {
    var path := [Field("field"), Index(0), Field("child")];
    assert path[..2][..1] == [Field("field")];
    assert path[..2] == [Field("field"), Index(0)];
    assert Decimal.NatToString(0) == "0";
  }

  /**
    Two errors, `[field, 0, child]` with `"boom"` then an empty path with
    `"other"`: one path `field.0.child` with message `boom`, and `boom` is logged.
  */
  lemma WorkedExample()
    ensures
      var errors := [ServerError("boom", [Field("field"), Index(0), Field("child")]), ServerError("other", [])];
      && PathsOf(errors) == ["field.0.child"]
      && MessagesOf(errors) == ["boom"]
      && FirstMessage(errors) == Some("boom")
  {
    var errors := [ServerError("boom", [Field("field"), Index(0), Field("child")]), ServerError("other", [])];
    RenderExample();
    assert errors[..1] == [errors[0]];
    assert errors[..1][..0] == [];
  }
}
