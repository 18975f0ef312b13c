/**
 * The records the panel works on: the captured call, its (duck-typed)
 * header collections, the user's filter rules and the search settings.
 */
module Calls {
  import opened Wrappers

  /**
   * One element of an array-shaped header list, `{name, key, value}`.
   * The empty string stands for an absent (falsy) field.
   */
  datatype HeaderItem = HeaderItem(name: string, key: string, value: string)

  /**
   * A value of an object-shaped header map: a string, or a nested object
   * of which the panel reads `.value`, `.name`, or its JSON text.
   */
  datatype HeaderValue =
    | Text(s: string)
    | Nested(value: string, name: string, json: string)

  /**
   * Headers as they reach the panel: absent, the DevTools array form, or a
   * map from name to value (entries in `Object.entries` order).
   */
  datatype Headers =
    | NoHeaders
    | ArrayForm(items: seq<HeaderItem>)
    | ObjectForm(entries: seq<(string, HeaderValue)>)

  /** One observed network exchange. */
  datatype CallRecord = CallRecord(
    id: string,
    url: string,
    httpMethod: string,
    status: nat,
    statusText: string,
    requestHeaders: Headers,
    responseHeaders: Headers,
    requestBody: Option<string>,
    responseBody: Option<string>,
    timestamp: int,
    duration: int,
    error: Option<string>
  )

  /** `headers || {}`: absent headers read as the empty map. */
  function HeadersOrEmpty(h: Headers): (r: Headers)
    ensures r != NoHeaders
    ensures h != NoHeaders ==> r == h
  {
    if h.NoHeaders? then ObjectForm([]) else h
  }

  /** A user-defined include/exclude rule; `None` is an omitted field. */
  datatype FilterRule = FilterRule(
    id: string,
    name: string,
    httpMethod: Option<string>,
    urlPattern: Option<string>,
    includeHeaders: Option<bool>,
    includePayload: Option<bool>,
    includeResponse: Option<bool>,
    includeErrors: Option<bool>,
    responseCodeFilter: Option<seq<string>>,
    isActive: bool,
    isExclude: Option<bool>
  )

  /** Global free-text query and the fields it may look at besides the URL. */
  datatype SearchConfig = SearchConfig(
    query: string,
    searchInHeaders: bool,
    searchInPayload: bool,
    searchInResponse: bool,
    searchInErrors: bool,
    useVoiceSearch: bool
  )

  /** An optional string is truthy when present and non-empty. */
  predicate Truthy(o: Option<string>) {
    o.Some? && o.value != ""
  }

  /** The `error ? ... : undefined` text the normalisers attach to a status. */
  predicate IsHttpError(status: nat) {
    status >= 400
  }
}
