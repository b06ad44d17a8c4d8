/**
  The parent trace context taken from an inbound request: the raw values of
  the two W3C Trace Context headers, `traceparent` (section 3.2 of the W3C
  Trace Context Recommendation) and `tracestate` (section 3.3), offered to
  the propagator through key lookup and key enumeration. Parsing the values
  is the propagator's business and is not modelled.
*/
module TraceContext {
  import opened Wrappers

  const TraceparentHeader: string := "traceparent"
  const TracestateHeader: string := "tracestate"

  function OptionToSeq<T>(o: Option<T>): (s: seq<T>)
    ensures |s| <= 1
    ensures o.Some? ==> s == [o.value]
    ensures o.None? ==> s == []
  {
    if o.Some? then [o.value] else []
  }

  datatype ParentTraceContext = ParentTraceContext(parent: Option<string>, state: Option<string>) {

    /** `Extractor::get`: exact, case-sensitive match on the two header names. */
    function Get(key: string): (r: Option<string>)
      ensures key == TraceparentHeader ==> r == parent
      ensures key == TracestateHeader ==> r == state
      ensures key != TraceparentHeader && key != TracestateHeader ==> r == None
    {
      if key == TraceparentHeader then parent
      else if key == TracestateHeader then state
      else None
    }

    /** `Extractor::keys` AS WRITTEN: the present header VALUES, parent before state. */
    function Keys(): seq<string> {
      OptionToSeq(parent) + OptionToSeq(state)
    }

    /** `Extractor::keys` as the propagation interface means it: the names of the present headers. */
    function HeaderKeys(): seq<string> {
      (if parent.Some? then [TraceparentHeader] else []) + (if state.Some? then [TracestateHeader] else [])
    }
  }

  /** `ParentTraceContext::new` stores both options as given. */
  function New(parent: Option<string>, state: Option<string>): (c: ParentTraceContext)
    ensures c.parent == parent && c.state == state
  {
    ParentTraceContext(parent, state)
  }

  /** Names differing only in case are not the header's name. */
  lemma GetIsCaseSensitive(c: ParentTraceContext)
    ensures c.Get("TraceParent") == None
    ensures c.Get("TRACESTATE") == None
    ensures c.Get("") == None
  {
    assert "TraceParent"[0] != TraceparentHeader[0];
    assert "TRACESTATE"[0] != TracestateHeader[0];
  }

  /** `keys` lists the values that are present, parent first; it is empty exactly when both are absent. */
  lemma KeysListsPresentValues(c: ParentTraceContext)
    ensures |c.Keys()| == (if c.parent.Some? then 1 else 0) + (if c.state.Some? then 1 else 0)
    ensures c.Keys() == [] <==> c.parent.None? && c.state.None?
    ensures c.parent.Some? ==> c.Keys()[0] == c.parent.value
    ensures c.state.Some? ==> c.Keys()[|c.Keys()| - 1] == c.state.value
    ensures forall v :: v in c.Keys() <==> Some(v) == c.parent || Some(v) == c.state
  {
  }

  /**
    The finding, exhibited: with only a `traceparent` header, `keys` returns
    its value, and looking that value up as a key finds nothing.
  */
  lemma KeysAreNotHeaderNames()
    ensures
      var value := "00-4bf92f3577b34da6a3ce929d0e0e4736-00f067aa0ba902b7-01";
      var c := New(Some(value), None);
      && c.Keys() == [value]
      && c.Get(c.Keys()[0]) == None
  {
  }

  /** The corrected enumeration names exactly the keys `get` answers, in header order. */
  lemma HeaderKeysMatchGet(c: ParentTraceContext, k: string)
    ensures k in c.HeaderKeys() <==> c.Get(k).Some?
    ensures |c.HeaderKeys()| == |c.Keys()|
    ensures c.parent.Some? ==> c.HeaderKeys()[0] == TraceparentHeader
  {
    assert TraceparentHeader != TracestateHeader by {
      assert TraceparentHeader[5] != TracestateHeader[5];
    }
  }
}
