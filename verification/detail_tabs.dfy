/**
 * The call detail panel: the search effects of the two detail-tab
 * components, the response tab's state, the refresh button, and the
 * `copyAsCurl` of `NetworkDetailTabs`.
 *
 * `SafeNetworkDetailTabs` finds its results with a global, case-insensitive
 * regular expression built from the escaped query (non-overlapping);
 * `NetworkDetailTabs` uses `enhancedJsonSearch` (overlapping). Both reset
 * the current index to 0 whenever the query or the body changes.
 */
module DetailTabs {
  import opened Wrappers
  import opened Strings
  import opened Calls
  import opened Json
  import opened JsonSearch
  import opened Highlight
  import opened Seqs
  import CopyCommands

  // ---------------------------------------------------------------------
  // Search effects
  // ---------------------------------------------------------------------

  /** The results a search effect stores and the index it resets to. */
  datatype SearchState = SearchState(results: seq<FlatHit>, index: nat)

  /** The guard of both effects: `query && query.trim() && body`. */
  predicate SearchArmed(body: Option<string>, query: string) {
    !BlankQuery(query) && Truthy(body)
  }

  /**
   * The results of the exec loop of `new RegExp(escaped query, "gi")` over
   * a body: one per match, carrying the matched (original-case) text.
   */
  function SafeResults(b: string, query: string): (r: seq<FlatHit>)
    requires |query| > 0
    ensures |r| == |RegexMatches(b, query)|
  {
    FlatHits(b, query, RegexMatches(b, query))
  }

  /** `SafeNetworkDetailTabs`: the regex results when armed, none otherwise; index back to 0. */
  function SafeSearch(body: Option<string>, query: string): (r: SearchState)
    ensures r.index == 0
    ensures !SearchArmed(body, query) ==> r.results == []
    ensures SearchArmed(body, query) ==> |query| > 0 && r.results == SafeResults(body.value, query)
  {
    if SearchArmed(body, query) then
      NonBlankQueryNonEmpty(query);
      SearchState(SafeResults(body.value, query), 0)
    else
      SearchState([], 0)
  }

  /** Result `k` lies at match `k` and carries the original text found there. */
  lemma SafeResultsAt(b: string, query: string, k: int)
    requires |query| > 0 && 0 <= k < |RegexMatches(b, query)|
    ensures var p := RegexMatches(b, query)[k];
            p + |query| <= |b| && SafeResults(b, query)[k] == FlatHit(p, |query|, b[p..p + |query|])
  {
    FlatHitsAt(b, query, RegexMatches(b, query));
  }

  /** Match `k` of the regex scan is an occurrence of the query, ignoring case. */
  lemma RegexMatchOccurs(b: string, query: string, k: int)
    requires |query| > 0 && 0 <= k < |RegexMatches(b, query)|
    ensures OccursAt(Lower(b), Lower(query), RegexMatches(b, query)[k])
  {
  }

  /** Each safe result is an occurrence of the query, ignoring case. */
  lemma SafeResultsOccur(b: string, query: string, k: int)
    requires |query| > 0 && 0 <= k < |SafeResults(b, query)|
    ensures OccursAt(Lower(b), Lower(query), SafeResults(b, query)[k].position)
  {
    SafeResultsAt(b, query, k);
    RegexMatchOccurs(b, query, k);
  }

  /** Each safe result spans the query's length and carries the original text found there. */
  lemma SafeResultsText(b: string, query: string, k: int)
    requires |query| > 0 && 0 <= k < |SafeResults(b, query)|
    ensures var h := SafeResults(b, query)[k];
            && h.length == |query|
            && h.position + |query| <= |b|
            && h.text == b[h.position..h.position + |query|]
  {
    SafeResultsAt(b, query, k);
  }

  /** The safe results do not overlap: each starts after the previous one ends. */
  lemma SafeResultsDisjoint(b: string, query: string, k: int)
    requires |query| > 0 && 0 <= k < |SafeResults(b, query)| - 1
    ensures SafeResults(b, query)[k].position + |query| <= SafeResults(b, query)[k + 1].position
  {
    SafeResultsAt(b, query, k);
    SafeResultsAt(b, query, k + 1);
  }

  /** Every occurrence of the query, ignoring case, lies inside some safe result. */
  lemma SafeResultsCover(b: string, query: string, j: int)
    requires |query| > 0 && OccursAt(Lower(b), Lower(query), j)
    ensures var rs := SafeResults(b, query);
            exists k | 0 <= k < |rs| :: rs[k].position <= j < rs[k].position + |query|
  {
    var ps := RegexMatches(b, query);
    RegexComplete(Lower(b), Lower(query), 0, j);
    assert CoversAt(ps, |query|, j);
    var k :| 0 <= k < |ps| && ps[k] <= j < ps[k] + |query|;
    SafeResultsAt(b, query, k);
  }

  /**
   * Result `k` of the safe search sits where the highlighter draws the
   * search span numbered `k`, so "next"/"previous" scroll to the span
   * carrying that index.
   */
  lemma SafeResultsMatchSpans(b: string, query: string)
    requires !BlankQuery(query)
    ensures |query| > 0
    ensures var rs := SafeResults(b, query);
            var sp := SearchSpans(b, query);
            && |rs| == |sp|
            && forall k | 0 <= k < |rs| ::
                 rs[k].position == sp[k].position && rs[k].length == sp[k].length && sp[k].matchIndex == k
  {
    NonBlankQueryNonEmpty(query);
    FlatHitsAt(b, query, RegexMatches(b, query));
  }

  /** `NetworkDetailTabs`: the results of `enhancedJsonSearch(body, query, false)`. */
  function NetworkSearch(body: Option<string>, query: string): (r: SearchState)
    ensures r.index == 0
    ensures !SearchArmed(body, query) ==> r.results == []
    ensures SearchArmed(body, query) ==>
              |query| > 0 && r.results == FlatScan(body.value, query, false)
  {
    if SearchArmed(body, query) then
      SearchState(EnhancedJsonSearch(body.value, query, false), 0)
    else
      SearchState([], 0)
  }

  /**
   * The overlapping results contain every non-overlapping one: each safe
   * result position is also a result position of the other component.
   */
  lemma SafeResultsAmongNetworkResults(body: Option<string>, query: string, k: int)
    requires SearchArmed(body, query)
    requires 0 <= k < |SafeSearch(body, query).results|
    ensures var ns := NetworkSearch(body, query).results;
            exists m | 0 <= m < |ns| :: ns[m].position == SafeSearch(body, query).results[k].position
  {
    SafeResultsOccur(body.value, query, k);
    var p := SafeSearch(body, query).results[k].position;
    assert OccursAt(Fold(body.value, false), Fold(query, false), p);
    FlatScanComplete(body.value, query, false, p);
  }

  /** Lower-casing leaves a string without capitals unchanged. */
  lemma LowerNoCapitals(s: string)
    requires forall i | 0 <= i < |s| :: !('A' <= s[i] <= 'Z')
    ensures Lower(s) == s
  {
  }

  lemma NotBlankQuery(q: string)
    requires |q| > 0 && !IsSpace(q[0])
    ensures !BlankQuery(q)
  {
    TrimEmptyIffBlank(q);
  }

  lemma RegexOnAaa()
    ensures RegexFrom("aaa", "aa", 0) == [0]
  {
    assert OccursAt("aaa", "aa", 0);
    assert RegexFrom("aaa", "aa", 2) == [];
  }

  lemma OccurrencesOnAaa()
    ensures OccurrencesFrom("aaa", "aa", 0) == [0, 1]
  {
    assert OccursAt("aaa", "aa", 0);
    assert !OccursAt("aaa", "aa", 0 + 1 + 1);
    assert OccursAt("aaa", "aa", 0 + 1);
    assert OccurrencesFrom("aaa", "aa", 2) == [];
    assert OccurrencesFrom("aaa", "aa", 1) == [1];
  }

  /** On "aaa" with query "aa" the two components disagree: one result against two overlapping ones. */
  lemma SearchVariantsDiffer()
    ensures |SafeSearch(Some("aaa"), "aa").results| == 1
    ensures |NetworkSearch(Some("aaa"), "aa").results| == 2
  {
    LowerNoCapitals("aaa");
    LowerNoCapitals("aa");
    NotBlankQuery("aa");
    RegexOnAaa();
    OccurrencesOnAaa();
  }

  // ---------------------------------------------------------------------
  // The response tab
  // ---------------------------------------------------------------------

  predicate Success(status: nat) {
    200 <= status < 300
  }

  /** The five-second timer runs exactly while a successful call has no body yet. */
  predicate TimerArmed(call: CallRecord) {
    call.responseBody.None? && Success(call.status)
  }

  /** The timeout flag: set once the armed timer has elapsed, cleared otherwise. */
  function TimedOut(call: CallRecord, elapsed: bool): (r: bool)
    ensures r ==> TimerArmed(call)
  {
    TimerArmed(call) && elapsed
  }

  /** What the response tab shows. */
  datatype ResponseView =
    | JsonTree(data: Json)
    | HighlightedText(segments: seq<Segment>)
    | LoadingBody
    | FailedToLoad
    | NoResponseBody

  predicate ShowsContent(v: ResponseView) {
    v.JsonTree? || v.HighlightedText?
  }

  /**
   * The response tab: a non-empty body is shown as a tree when it parses
   * (`parsed`), else as highlighted text that reads back as the body; an
   * absent body shows a spinner while a successful call's timer has not
   * fired and an error otherwise; an empty body says so.
   */
  function ResponseTab(call: CallRecord, parsed: Option<Json>, query: string, timedOut: bool): (r: ResponseView)
    ensures ShowsContent(r) <==> Truthy(call.responseBody)
    ensures r.HighlightedText? ==> Concat(r.segments) == call.responseBody.value
    ensures r == LoadingBody <==> call.responseBody.None? && Success(call.status) && !timedOut
    ensures r == NoResponseBody <==> call.responseBody == Some("")
  {
    match call.responseBody
    case Some(b) =>
      if b == "" then NoResponseBody
      else if parsed.Some? then JsonTree(parsed.value)
      else
        RenderReconstructs(b, Candidates(b, query));
        HighlightedText(Highlighted(b, query))
    case None =>
      if Success(call.status) && !timedOut then LoadingBody else FailedToLoad
  }

  /** With the timer modelled, the spinner shows exactly until the timer fires. */
  lemma SpinnerUntilTimeout(call: CallRecord, parsed: Option<Json>, query: string, elapsed: bool)
    ensures ResponseTab(call, parsed, query, TimedOut(call, elapsed)) == LoadingBody
            <==> TimerArmed(call) && !elapsed
    ensures ResponseTab(call, parsed, query, TimedOut(call, elapsed)) == FailedToLoad
            <==> call.responseBody.None? && (!Success(call.status) || elapsed)
  {
  }

  /** The refresh button: no (truthy) body and a 2xx status. */
  predicate RefreshVisible(call: CallRecord) {
    !Truthy(call.responseBody) && Success(call.status)
  }

  /** The refresh button is offered exactly for a successful call whose tab shows no content. */
  lemma RefreshIffNoContent(call: CallRecord, parsed: Option<Json>, query: string, timedOut: bool)
    ensures RefreshVisible(call)
            <==> Success(call.status) && !ShowsContent(ResponseTab(call, parsed, query, timedOut))
  {
  }

  // ---------------------------------------------------------------------
  // copyAsCurl of NetworkDetailTabs
  // ---------------------------------------------------------------------

  /** `${value}` in a template: a string as is, an object as "[object Object]". */
  function TemplateText(v: HeaderValue): string {
    match v
    case Text(s) => s
    case Nested(_, _, _) => CopyCommands.ObjectString
  }

  /**
   * `Object.entries(requestHeaders)`: map entries as they are, array
   * elements under their index; `None` when the headers are absent (the
   * call throws).
   */
  function HeaderEntries(h: Headers): (r: Option<seq<(string, string)>>)
    ensures r.None? <==> h.NoHeaders?
    ensures h.ArrayForm? ==> |r.value| == |h.items| && forall k | 0 <= k < |r.value| ::
              r.value[k] == (NatToString(k), CopyCommands.ObjectString)
    ensures h.ObjectForm? ==> |r.value| == |h.entries| && forall k | 0 <= k < |r.value| ::
              r.value[k] == (h.entries[k].0, TemplateText(h.entries[k].1))
  {
    match h
    case ArrayForm(items) =>
      Some(seq(|items|, k requires 0 <= k < |items| => (NatToString(k), CopyCommands.ObjectString)))
    case ObjectForm(entries) =>
      Some(seq(|entries|, k requires 0 <= k < |entries| => (entries[k].0, TemplateText(entries[k].1))))
    case NoHeaders => None
  }

  /** ` -X <method> "<url>"` with the method as recorded, no default. */
  function DetailRequestLine(call: CallRecord): string {
    " -X " + call.httpMethod + " \"" + call.url + "\""
  }

  predicate DetailSendsBody(call: CallRecord) {
    Truthy(call.requestBody) && CopyCommands.BodyMethod(call.httpMethod)
  }

  /** ` -d '<body>'`, the body pasted between quotes without escaping. */
  function DetailBody(call: CallRecord): string {
    if DetailSendsBody(call) then " -d '" + call.requestBody.value + "'" else ""
  }

  /** `copyAsCurl` as written; `None` where `Object.entries` throws. */
  function DetailCurl(call: CallRecord): (r: Option<string>)
    ensures r.None? <==> call.requestHeaders.NoHeaders?
    ensures r.Some? ==> StartsWith(r.value, "curl" + DetailRequestLine(call))
    ensures r.Some? && DetailSendsBody(call) ==> EndsWith(r.value, " -d '" + call.requestBody.value + "'")
  {
    match HeaderEntries(call.requestHeaders)
    case None => None
    case Some(ps) =>
      var head := "curl" + DetailRequestLine(call);
      var tail := CopyCommands.Concat(CopyCommands.Render(ps, CopyCommands.CurlFlag)) + DetailBody(call);
      StartsWithAppend(head, tail);
      EndsWithAppend(head + CopyCommands.Concat(CopyCommands.Render(ps, CopyCommands.CurlFlag)), DetailBody(call));
      AppendAssoc(head, CopyCommands.Concat(CopyCommands.Render(ps, CopyCommands.CurlFlag)), DetailBody(call));
      Some(head + tail)
  }

  /**
   * The whole `copyAsCurl` text: nothing when the headers are absent,
   * otherwise the request line, one
   * ` -H "k: v"` per entry of `Object.entries` (an array element under its
   * index with "[object Object]", a map entry under its key with its
   * template text), then ` -d '<body>'` only for a body method with a body.
   */
  lemma DetailCurlWritesEntries(call: CallRecord)
    ensures DetailCurl(call).None? <==> call.requestHeaders.NoHeaders?
    ensures DetailCurl(call).Some? ==>
              var flags := CopyCommands.Render(HeaderEntries(call.requestHeaders).value, CopyCommands.CurlFlag);
              && DetailCurl(call).value
                 == "curl" + DetailRequestLine(call) + CopyCommands.Concat(flags)
                    + (if DetailSendsBody(call) then " -d '" + call.requestBody.value + "'" else "")
              && (call.requestHeaders.ArrayForm? ==>
                    |flags| == |call.requestHeaders.items|
                    && forall k | 0 <= k < |flags| ::
                         flags[k] == CopyCommands.CurlFlag(NatToString(k), CopyCommands.ObjectString))
              && (call.requestHeaders.ObjectForm? ==>
                    |flags| == |call.requestHeaders.entries|
                    && forall k | 0 <= k < |flags| ::
                         flags[k] == CopyCommands.CurlFlag(call.requestHeaders.entries[k].0,
                                                           TemplateText(call.requestHeaders.entries[k].1)))
  {
    if call.requestHeaders != NoHeaders {
      var ps := HeaderEntries(call.requestHeaders).value;
      var flags := CopyCommands.Concat(CopyCommands.Render(ps, CopyCommands.CurlFlag));
      AppendAssoc("curl" + DetailRequestLine(call), flags, DetailBody(call));
    }
  }

  /**
   * The array form the live path records is written by index: the item
   * `{name: "A", value: "b"}` becomes the line ` -H "0: [object Object]"`.
   */
  lemma DetailCurlArrayHeader(url: string)
    ensures var call := CallRecord("1", url, "GET", 200, "", ArrayForm([HeaderItem("A", "", "b")]), NoHeaders,
                                   None, None, 0, 0, None);
            DetailCurl(call) == Some("curl" + DetailRequestLine(call) + CopyCommands.CurlFlag("0", CopyCommands.ObjectString))
  {
    var call := CallRecord("1", url, "GET", 200, "", ArrayForm([HeaderItem("A", "", "b")]), NoHeaders,
                           None, None, 0, 0, None);
    var flags := CopyCommands.Render(HeaderEntries(call.requestHeaders).value, CopyCommands.CurlFlag);
    var line := CopyCommands.CurlFlag("0", CopyCommands.ObjectString);
    assert NatToString(0) == "0";
    assert flags == [line];
    assert CopyCommands.Concat(flags) == line + CopyCommands.Concat([]);
    DetailCurlWritesEntries(call);
    var head := "curl" + DetailRequestLine(call);
    assert DetailCurl(call).value == head + (line + "") + "";
    assert head + (line + "") + "" == head + line;
  }

  /** A body containing a single quote ends the quoted word early: the last word does not read back. */
  lemma DetailCurlBodyBreaks()
    ensures var call := CallRecord("1", "u", "POST", 200, "", ObjectForm([]), NoHeaders,
                                   Some("it's"), None, 0, 0, None);
            && DetailCurl(call).Some?
            && EndsWith(DetailCurl(call).value, " -d " + "'it's'")
            && CopyCommands.Unquote("'it's'", CopyCommands.Bare) == None
  {
    var call := CallRecord("1", "u", "POST", 200, "", ObjectForm([]), NoHeaders,
                           Some("it's"), None, 0, 0, None);
    assert DetailSendsBody(call);
    assert " -d '" + "it's" + "'" == " -d " + "'it's'";
    UnquoteItS();
  }

  lemma UnquoteItS()
    ensures CopyCommands.Unquote("'it's'", CopyCommands.Bare) == None
  {
    var w := "'it's'";
    assert w[1..] == "it's'";
    assert w[1..][1..] == "t's'";
    assert w[1..][1..][1..] == "'s'";
    assert w[1..][1..][1..][1..] == "s'";
    assert w[1..][1..][1..][1..][1..] == "'";
    assert w[1..][1..][1..][1..][1..][1..] == "";
    assert CopyCommands.Unquote("", CopyCommands.Single) == None;
    assert CopyCommands.Unquote("'", CopyCommands.Bare) == None;
    assert CopyCommands.Unquote("s'", CopyCommands.Bare) == None;
    assert CopyCommands.Unquote("'s'", CopyCommands.Single) == None;
    assert CopyCommands.Unquote("t's'", CopyCommands.Single) == None;
    assert CopyCommands.Unquote("it's'", CopyCommands.Single) == None;
  }

  /** The body written with the shell escape the other copy actions use. */
  function DetailBodyEscaped(call: CallRecord): string {
    if DetailSendsBody(call) then " -d " + CopyCommands.SingleQuoted(call.requestBody.value) else ""
  }

  /** `copyAsCurl` with the body escaped as `'` → `'"'"'`. */
  function DetailCurlEscaped(call: CallRecord): (r: Option<string>)
    ensures r.None? <==> call.requestHeaders.NoHeaders?
  {
    match HeaderEntries(call.requestHeaders)
    case None => None
    case Some(ps) =>
      Some("curl" + DetailRequestLine(call)
           + (CopyCommands.Concat(CopyCommands.Render(ps, CopyCommands.CurlFlag)) + DetailBodyEscaped(call)))
  }

  /** With the escape, the last shell word reads back as exactly the body, whatever it contains. */
  lemma DetailCurlEscapedRoundTrip(call: CallRecord)
    requires call.requestHeaders != NoHeaders && DetailSendsBody(call)
    ensures var word := CopyCommands.SingleQuoted(call.requestBody.value);
            && EndsWith(DetailCurlEscaped(call).value, " -d " + word)
            && CopyCommands.Unquote(word, CopyCommands.Bare) == Some(call.requestBody.value)
  {
    var ps := HeaderEntries(call.requestHeaders).value;
    var head := "curl" + DetailRequestLine(call) + CopyCommands.Concat(CopyCommands.Render(ps, CopyCommands.CurlFlag));
    var body := DetailBodyEscaped(call);
    AppendAssoc("curl" + DetailRequestLine(call), CopyCommands.Concat(CopyCommands.Render(ps, CopyCommands.CurlFlag)), body);
    EndsWithAppend(head, body);
    CopyCommands.ShellRoundTrip(call.requestBody.value);
  }

  /** Without a quote in the body, escaping changes nothing: both versions agree. */
  lemma DetailCurlEscapedAgrees(call: CallRecord)
    requires call.requestBody.Some? ==> '\'' !in call.requestBody.value
    ensures DetailCurlEscaped(call) == DetailCurl(call)
  {
    if DetailSendsBody(call) {
      var b := call.requestBody.value;
      ReplaceAllCharAbsent(b, '\'', "'\"'\"'");
      assert " -d " + ("'" + b + "'") == " -d '" + b + "'";
    }
  }

  lemma {:induction false} ReplaceAllCharAbsent(s: string, c: char, rep: string)
    requires c !in s
    ensures ReplaceAllChar(s, c, rep) == s
  {
    if |s| > 0 {
      assert s[0] in s;
      assert forall x | x in s[1..] :: x in s;
      ReplaceAllCharAbsent(s[1..], c, rep);
      assert [s[0]] + s[1..] == s;
    }
  }

  /** A call whose request headers are a map of non-empty names to non-empty strings. */
  predicate PlainHeaders(h: Headers) {
    h.ObjectForm? && forall i | 0 <= i < |h.entries| ::
      h.entries[i].0 != "" && h.entries[i].1.Text? && h.entries[i].1.s != ""
  }

  /** For plain string headers, `Object.entries` gives exactly the pairs the copy menu emits. */
  lemma PlainEntriesAreEmitted(h: Headers)
    requires PlainHeaders(h)
    ensures HeaderEntries(h) == Some(CopyCommands.EmittedPairs(h))
  {
    var entries := h.entries;
    FilterAll(entries, CopyCommands.EntryKeptTest);
    assert CopyCommands.EmittedPairs(h) == CopyCommands.EntryPairs(entries);
    var ps := HeaderEntries(h).value;
    var es := CopyCommands.EntryPairs(entries);
    forall k | 0 <= k < |ps|
      ensures ps[k] == es[k]
    {
      assert entries[k].1.Text?;
    }
    assert ps == es;
  }

  /**
   * On a call with a recorded method, plain string headers and a body
   * without a single quote, this `copyAsCurl` writes exactly what the copy
   * menu's bash cURL generator writes.
   */
  lemma DetailCurlAgreesWithMenu(call: CallRecord)
    requires call.httpMethod != ""
    requires PlainHeaders(call.requestHeaders)
    requires call.requestBody.Some? ==> '\'' !in call.requestBody.value
    ensures DetailCurl(call) == Some(CopyCommands.GenerateCurl(call, false))
  {
    assert CopyCommands.RequestMethod(call) == call.httpMethod;
    PlainEntriesAreEmitted(call.requestHeaders);
    var ps := HeaderEntries(call.requestHeaders).value;
    var flags := CopyCommands.Concat(CopyCommands.Render(ps, CopyCommands.CurlFlag));
    assert DetailBody(call) == CopyCommands.CurlBody(call) by {
      if DetailSendsBody(call) {
        var b := call.requestBody.value;
        ReplaceAllCharAbsent(b, '\'', "'\"'\"'");
        assert " -d " + ("'" + b + "'") == " -d '" + b + "'";
      }
    }
    CopyCommands.CurlWritesPairsAndBody(call, false);
    AppendAssoc("curl" + DetailRequestLine(call), flags, DetailBody(call));
  }
}
