/**
  Capturing the two trace-context headers from an inbound HTTP request and
  turning them into a `ParentTraceContext`.
*/
module TraceContextAxum {
  import opened Wrappers
  import opened TraceContext

  type HeaderValue = seq<bv8>

  /**
    A request's header map: each (lower-case, as the HTTP library normalises
    it) name with its values in arrival order.
  */
  type HeaderMap = map<string, seq<HeaderValue>>

  /** `HeaderMap::get`: the first value under the name, if any. */
  function HeaderGet(headers: HeaderMap, name: string): Option<HeaderValue> {
    if name in headers && |headers[name]| > 0 then Some(headers[name][0]) else None
  }

  /** The bytes `HeaderValue::to_str` accepts: visible ASCII and horizontal tab. */
  predicate IsVisibleAscii(value: HeaderValue) {
    forall i :: 0 <= i < |value| ==> (32 <= value[i] as int <= 126 || value[i] == 9)
  }

  /** `to_str().unwrap().to_string()`: the header's text, byte for character. */
  function HeaderText(value: HeaderValue): (text: string)
    requires IsVisibleAscii(value)
    ensures |text| == |value|
    ensures forall i :: 0 <= i < |value| ==> text[i] as int == value[i] as int
  {
    seq(|value|, i requires 0 <= i < |value| => value[i] as char)
  }

  /**
    The two captured headers can be read as text; `unwrap` panics on any
    other value, so extraction is only meaningful under this condition.
  */
  predicate Readable(headers: HeaderMap) {
    && (HeaderGet(headers, TraceparentHeader).Some? ==> IsVisibleAscii(HeaderGet(headers, TraceparentHeader).value))
    && (HeaderGet(headers, TracestateHeader).Some? ==> IsVisibleAscii(HeaderGet(headers, TracestateHeader).value))
  }

  function Capture(headers: HeaderMap, name: string): Option<string>
    requires HeaderGet(headers, name).Some? ==> IsVisibleAscii(HeaderGet(headers, name).value)
  {
    match HeaderGet(headers, name)
    case Some(value) => Some(HeaderText(value))
    case None => None
  }

  /** `HashMap::from_iter` over the entries whose value `is_some` (a later entry overwrites). */
  function CollectPresent(entries: seq<(string, Option<string>)>): map<string, Option<string>>
    decreases |entries|
  {
    if entries == [] then map[]
    else
      var rest := CollectPresent(entries[..|entries| - 1]);
      var e := entries[|entries| - 1];
      if e.1.Some? then rest[e.0 := e.1] else rest
  }

  lemma {:induction false} CollectPresentContents(entries: seq<(string, Option<string>)>)
    ensures forall k :: k in CollectPresent(entries) ==> CollectPresent(entries)[k].Some?
    ensures forall k :: k in CollectPresent(entries) <==>
      exists i :: 0 <= i < |entries| && entries[i].0 == k && entries[i].1.Some?
    decreases |entries|
  {
    if entries != [] {
      var init := entries[..|entries| - 1];
      CollectPresentContents(init);
      assert forall i :: 0 <= i < |init| ==> init[i] == entries[i];
    }
  }

  datatype ParentTraceContextAxum = ParentTraceContextAxum(headers: map<string, Option<string>>)

  /** The extractor's rejection type; this extractor never produces one. */
  datatype Rejection = Rejection

  /** `from_request_parts`: a map holding only the present ones of the two headers. */
  function FromRequestParts(headers: HeaderMap): (r: Result<ParentTraceContextAxum, Rejection>)
    requires Readable(headers)
    ensures r.Ok?
  {
    Ok(ParentTraceContextAxum(CollectPresent([
      (TraceparentHeader, Capture(headers, TraceparentHeader)),
      (TracestateHeader, Capture(headers, TracestateHeader))])))
  }

  /** `headers.get(name).cloned().unwrap_or_default()`. */
  function Lookup(headers: map<string, Option<string>>, name: string): Option<string> {
    if name in headers then headers[name] else None
  }

  /** `From<ParentTraceContextAxum> for ParentTraceContext`. */
  function ToParentTraceContext(value: ParentTraceContextAxum): (c: ParentTraceContext)
    ensures c.parent == Lookup(value.headers, TraceparentHeader)
    ensures c.state == Lookup(value.headers, TracestateHeader)
  {
    New(Lookup(value.headers, TraceparentHeader), Lookup(value.headers, TracestateHeader))
  }

  /**
    The captured map: its keys are among the two names, it holds an entry
    exactly for each of them the request carries, every stored value is
    `Some`, and that value is the header's text verbatim.
  */
  lemma CapturedHeaders(headers: HeaderMap)
    requires Readable(headers)
    ensures
      var m := FromRequestParts(headers).value.headers;
      && m.Keys <= {TraceparentHeader, TracestateHeader}
      && (forall k :: k in m ==> m[k].Some?)
      && (TraceparentHeader in m <==> HeaderGet(headers, TraceparentHeader).Some?)
      && (TracestateHeader in m <==> HeaderGet(headers, TracestateHeader).Some?)
      && (TraceparentHeader in m ==> m[TraceparentHeader] == Some(HeaderText(HeaderGet(headers, TraceparentHeader).value)))
      && (TracestateHeader in m ==> m[TracestateHeader] == Some(HeaderText(HeaderGet(headers, TracestateHeader).value)))
  {
    var entries := [
      (TraceparentHeader, Capture(headers, TraceparentHeader)),
      (TracestateHeader, Capture(headers, TracestateHeader))];
    CollectPresentContents(entries);
    assert TraceparentHeader != TracestateHeader by {
      assert TraceparentHeader[5] != TracestateHeader[5];
    }
    assert entries[..1] == [entries[0]];
    assert entries[..1][..0] == [];
    var first := Capture(headers, TraceparentHeader);
    assert CollectPresent(entries[..1]) == if first.Some? then map[TraceparentHeader := first] else map[];
  }

  /** Headers other than the two are ignored. */
  lemma OtherHeadersIgnored(headers: HeaderMap, other: HeaderMap)
    requires Readable(headers)
    requires HeaderGet(other, TraceparentHeader) == HeaderGet(headers, TraceparentHeader)
    requires HeaderGet(other, TracestateHeader) == HeaderGet(headers, TracestateHeader)
    ensures Readable(other)
    ensures FromRequestParts(other) == FromRequestParts(headers)
  {
  }

  /** End to end: the context's `get` answers with the request's own header text, or `None`. */
  lemma ContextCarriesRequestHeaders(headers: HeaderMap)
    requires Readable(headers)
    ensures
      var c := ToParentTraceContext(FromRequestParts(headers).value);
      && c.Get(TraceparentHeader) == Capture(headers, TraceparentHeader)
      && c.Get(TracestateHeader) == Capture(headers, TracestateHeader)
      && (HeaderGet(headers, TraceparentHeader).None? && HeaderGet(headers, TracestateHeader).None? ==> c.Keys() == [])
  {
    CapturedHeaders(headers);
  }
}
