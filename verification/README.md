# Network investigator panel — a Dafny model

This project models the logic of a Chrome DevTools panel that captures a page's network calls and lets the user inspect them. The model covers:

- the call pipeline: response-code patterns, include and exclude rules, the free-text search, rule edits, and live-event records;
- the conversion of a HAR log into call records, chunked and with progress reports, and the response-content lookup;
- the identifier detector (the 8-4-4-4-12 hex shape of section 4 of RFC 9562) and `formatUUID`;
- the body search: the depth-bounded structural walk, and the flat overlapping scan that `enhancedJsonSearch` returns;
- the highlight segmenter shared by the detail tabs and the JSON viewer: merge, stable sort, overlap drop and reconstruction, the search-result numbering, and next/previous navigation;
- the JSON viewer's collapse state and its match counter, threaded through the tree as an accumulator;
- the rule-building helpers of the filter panel;
- the copy menu's serialisers: cURL, PowerShell, fetch, header text, the "all" variants, and the format table;
- the call lists: the virtual-scroll window, the colour classes, URL segmentation and the row's cURL;
- the progressive-loading stage reducer;
- the API documentation table: route templates, lookup and search.

Every operation is a pure function over immutable datatypes. Strings are `seq<char>` with ASCII case mapping. JSON is an inductive datatype whose objects keep their keys in order. Header maps are sequences of pairs. The three header shapes the source handles by duck typing are explicit constructors: absent, array of items, and map. A thrown exception becomes `None`, or an error value in a result record.

Modules follow the source files:

| file | module | models |
|---|---|---|
| wrappers.dfy | Wrappers | `Option` |
| strings.dfy | Strings | ASCII case, `trim`, `indexOf`, `includes`, decimal rendering |
| seqs.dfy, sorting.dfy | Seqs, Sorting | filter, subsequence, flatten, stable insertion sort |
| json.dfy | Json | the parsed-JSON datatype |
| calls.dfy | Calls | the call record, header shapes, filter rules, search settings |
| network_calls.dfy | NetworkCalls | src/hooks/useNetworkCalls.ts |
| uuid.dfy | Uuid | src/utils/uuid.ts |
| json_search.dfy | JsonSearch | src/utils/jsonSearch.ts |
| highlight.dfy | Highlight | the segmenter of both detail-tab components and navigation |
| detail_tabs.dfy | DetailTabs | search effects, response tab and `copyAsCurl` of both detail-tab components |
| json_viewer.dfy | JsonViewer | src/components/JsonViewer.tsx |
| historical_loader.dfy | HistoricalLoader | src/utils/historicalNetworkLoader.ts |
| filter_panel.dfy | FilterPanel | src/components/FilterPanel.tsx |
| copy_commands.dfy | CopyCommands | src/components/CopyDropdown.tsx, plus a POSIX single-quote reader |
| call_list.dfy | CallList | both call-list components |
| progressive_loading.dfy | ProgressiveLoading | src/hooks/useProgressiveLoading.ts |
| api_docs.dfy | ApiDocs | src/services/shipwellApi.ts |

Where the code and its documented intent differ, the model follows the code:

- Active include rules are OR-combined (`useNetworkCalls.ts:245-248`). The panel heading nevertheless says "must match ALL active filters" (`FilterPanel.tsx:404`). `NetworkCalls.IncludeRulesAreOred` and `FilterPanel.Heading` state both.
- A live event is appended without looking for an earlier record with the same id (`NetworkCalls.LiveEventsNotDeduplicated`).
- A HAR entry converts to nothing when either its request or its response is missing, not only when both are.
- The structural walk scans string values for overlapping occurrences (the next search starts one past the last hit). A number or boolean property gives one hit spanning its whole text.
- The plain HAR loader succeeds with no calls on an empty entry list, while the progress variant reports "No network data available" (`HistoricalLoader.EmptyLogDiffers`).
- The add form stores an empty URL pattern as present but empty. The edit form's save turns it into an absent one (`FilterPanel.AddedEmptyPatternIsNotNormal`).

## Model

| member | source | states |
|---|---|---|
| NetworkCalls.ClassPatternRange | src/hooks/useNetworkCalls.ts:229-232 | a pattern ending in "XX" with first character d accepts exactly the statuses 100·d to 100·d+99 when d is a digit 1–9, and no status otherwise |
| NetworkCalls.ExactPatternMatchesOnly | src/hooks/useNetworkCalls.ts:233-235 | a pattern that is the decimal text of a code matches that status and no other |
| NetworkCalls.RuleMatchesIff | src/hooks/useNetworkCalls.ts:249-274 | a rule matches iff each criterion it sets holds: method equality, case-insensitive URL containment, an error text or a status of 400 or more, some response-code pattern matching |
| NetworkCalls.EmptyRuleMatchesAll | src/hooks/useNetworkCalls.ts:249-274 | a rule that sets no criterion matches every call |
| NetworkCalls.StagesAreFilters | src/hooks/useNetworkCalls.ts:246-341 | each stage, including a switched-off one, is a filter by its own test |
| NetworkCalls.FilteredCallsIsFilter | src/hooks/useNetworkCalls.ts:242-344 | the three stages in sequence are one order-preserving filter by the conjunction of their tests |
| NetworkCalls.FilteredCallsMembership | src/hooks/useNetworkCalls.ts:242-344 | a call is shown iff it was captured and passes the include, exclude and search tests |
| NetworkCalls.FilteredCallsSubsequence | src/hooks/useNetworkCalls.ts:242-344 | the shown list is an order-preserving subsequence of the captured list |
| NetworkCalls.FilteredCallsIdempotent | src/hooks/useNetworkCalls.ts:242-344 | filtering the shown list again with the same rules and query changes nothing |
| NetworkCalls.ExcludeDominates | src/hooks/useNetworkCalls.ts:279-311 | a call matched by an active exclude rule is never shown, whatever the include rules say |
| NetworkCalls.IncludeRulesAreOred | src/hooks/useNetworkCalls.ts:245-277 | with an active include rule, a call is shown iff some active include rule matches it, no exclude rule matches it and the query admits it |
| NetworkCalls.IncludeMatchIffSomeRule | src/hooks/useNetworkCalls.ts:206-213 | the include list matches a call iff some active non-exclude rule of the full list matches it |
| NetworkCalls.NoIncludeRulesPassAll | src/hooks/useNetworkCalls.ts:246 | without an active include rule the include stage passes every call |
| NetworkCalls.InactiveRulesIgnored | src/hooks/useNetworkCalls.ts:206-217 | dropping the inactive rules leaves the shown list unchanged |
| NetworkCalls.NoRulesBlankQueryShowsAll | src/hooks/useNetworkCalls.ts:220-223 | with no rules and a whitespace-only query every captured call is shown, in order |
| NetworkCalls.UrlHitSurvivesSearch | src/hooks/useNetworkCalls.ts:316 | a call whose lower-cased URL contains the normalised query passes the search stage |
| NetworkCalls.SearchStageMembership | src/hooks/useNetworkCalls.ts:313-341 | the search stage keeps a call iff the query is blank or the URL or an enabled field contains it; a blank query keeps the whole list |
| NetworkCalls.AddFilter | src/hooks/useNetworkCalls.ts:356-363 | the existing rules stay in front, followed by one active rule with the new id and every field of the draft: name, method, URL pattern, the three search toggles, the error flag, the response codes and the exclude flag |
| NetworkCalls.ApplyPatchIdempotent | src/hooks/useNetworkCalls.ts:369 | merging the same patch twice equals merging it once |
| NetworkCalls.UpdateFilter | src/hooks/useNetworkCalls.ts:365-372 | exactly the rules with the id take the patch; every other rule and the length are unchanged |
| NetworkCalls.RemoveFilter | src/hooks/useNetworkCalls.ts:373-375 | a rule remains iff it was there and its id differs; order is kept, and each rule with another id keeps its number of copies while rules with the id keep none |
| NetworkCalls.RemoveUndoesAdd | src/hooks/useNetworkCalls.ts:356-375 | adding a rule under a fresh id and removing that id gives the list back |
| NetworkCalls.RemoveAfterUpdate | src/hooks/useNetworkCalls.ts:365-375 | an update that keeps ids does not change what a removal of that id leaves |
| NetworkCalls.LiveCall | src/hooks/useNetworkCalls.ts:147-175 | missing request or response fields default to "", "GET" and 0; the error text is "HTTP <status>" exactly when the status is 400 or more; absent headers read as an empty map |
| NetworkCalls.OnRequestFinished | src/hooks/useNetworkCalls.ts:177-191 | an event adds exactly one record at the end once its body callback has run, or at once without `getContent`; the body is set iff content was delivered |
| NetworkCalls.LiveEventsNotDeduplicated | src/hooks/useNetworkCalls.ts:177-191 | an event whose id is already listed leaves two records with that id |
| Uuid.DetectFrom | src/utils/uuid.ts:13-26 | every match from a scan position is a well-formed identifier at its position, after that position, and matches do not overlap |
| Uuid.Detect | src/utils/uuid.ts:5-6 | every match is an 8-4-4-4-12 hex identifier occurring at its position, in increasing, non-overlapping order |
| Uuid.ContextWindow | src/utils/uuid.ts:21 | the context is the up to 20 characters before the position followed by the up to 40 characters from it, clamped to the text |
| Uuid.ContextShowsMatch | src/utils/uuid.ts:21 | an identifier at a position appears inside its context at offset min(position, 20) |
| Uuid.DetectFromComplete | src/utils/uuid.ts:17-23 | every position at or after the scan start where the shape occurs lies inside some reported match |
| Uuid.DetectComplete | src/utils/uuid.ts:17-23 | every occurrence of the shape in the text lies inside some reported match |
| Uuid.DetectFromNone | src/utils/uuid.ts:17-23 | a text with no occurrence of the shape yields no matches |
| Uuid.ExtractFromUrl | src/utils/uuid.ts:33-36 | one identifier per detected match, in order, each occurring in the URL at that match's position |
| Uuid.CleanKeepsOthers | src/utils/uuid.ts:54 | cleaning removes exactly the hyphens, keeping every other character in order and as often as it occurs, and lower-cases each one |
| Uuid.CleanExample | src/utils/uuid.ts:54 | "AB-c" cleans to "abc" |
| Uuid.FormatUuid | src/utils/uuid.ts:52-62 | an input whose cleaned form is not 32 characters comes back unchanged; otherwise the output has 36 characters with hyphens exactly at offsets 8, 13, 18 and 23 |
| Uuid.HyphenateRoundTrip | src/utils/uuid.ts:61 | stripping the hyphens from a hyphenated 32-character string gives it back |
| Uuid.FormatUuidStripsBack | src/utils/uuid.ts:52-62 | on a 32-character cleaned input, stripping hyphens from the output gives the cleaned input |
| Uuid.FormatUuidIdempotent | src/utils/uuid.ts:52-62 | formatting twice equals formatting once |
| Uuid.FormatUuidOfShape | src/utils/uuid.ts:52-62 | a detected identifier is formatted as its lower-case form |
| JsonSearch.OccurrencesExact | src/utils/jsonSearch.ts:168-180 | the positions the `indexOf` loop visits are exactly the occurrences of the query, overlapping ones included |
| JsonSearch.FlatScanSound | src/utils/jsonSearch.ts:168-180 | each flat result is an occurrence of the folded query in the folded text, spans the query's length and carries the original text there; positions strictly increase |
| JsonSearch.FlatScanComplete | src/utils/jsonSearch.ts:168-180 | every occurrence of the folded query in the folded text is reported |
| JsonSearch.FlatScanLoop | src/utils/jsonSearch.ts:168-180 | the loop restarting one past each hit computes the flat scan |
| JsonSearch.EnhancedJsonSearch | src/utils/jsonSearch.ts:146-207 | a blank query or an empty body gives no results; otherwise the result is the flat scan of the raw text, whether or not the body parses |
| JsonSearch.Truncate50 | src/utils/jsonSearch.ts:82 | a value of at most 50 characters is shown whole; a longer one as its first 50 characters followed by "..." |
| JsonSearch.StringHits | src/utils/jsonSearch.ts:70-87 | every result of a string value is a 'value' result at an overlapping occurrence of the folded query, spanning the query, at the property path, with increasing positions |
| JsonSearch.StringHitsComplete | src/utils/jsonSearch.ts:70-87 | every overlapping occurrence of the folded query in the string has a result at that position |
| JsonSearch.StructuredSearch | src/utils/jsonSearch.ts:19-140 | a blank query gives no results; otherwise the results are the walk's results, sorted by path |
| JsonSearch.StructuredSearchStable | src/utils/jsonSearch.ts:134-135 | results with equal paths keep the walk's order |
| JsonSearch.WalkMembersFlatten | src/utils/jsonSearch.ts:52-108 | the walk of an object's properties concatenates each property's results in key order |
| JsonSearch.KeyHitReported | src/utils/jsonSearch.ts:53-66 | a key containing the query yields a 'key' result at position 0 spanning the key, at `parent.key`, or `key` at the root |
| JsonSearch.NumberPropertyHit | src/utils/jsonSearch.ts:88-101 | a number property whose text contains the query yields exactly one result at position 0 spanning that text |
| JsonSearch.ScalarItemsIgnored | src/utils/jsonSearch.ts:42-51 | numbers, booleans and nulls that are array elements contribute nothing |
| JsonSearch.WalkPrune | src/utils/jsonSearch.ts:31-131 | the walk of any tree equals the walk of the same tree with every node beyond the depth bound cut to null |
| JsonSearch.FollowPruned | src/utils/jsonSearch.ts:37-50 | in the cut tree, the path to a string whose visit depth exceeds 20 reaches nothing or null |
| JsonSearch.DeepStringIgnored | src/utils/jsonSearch.ts:37-40 | a string anywhere in a tree whose visit depth exceeds 20 is not visited: it is among the nodes cut, and cutting them leaves the walk unchanged |
| JsonSearch.ShallowStringFound | src/utils/jsonSearch.ts:31-131 | a string anywhere in a tree whose visit depth is at most 20 (an array element one level below its array, a property value at its object's level) gives a 'value' result at every occurrence of the query, carrying the path the steps spell out |
| Highlight.RegexFrom | src/components/SafeNetworkDetailTabs.tsx:336-344 | each match from a scan position is an occurrence at or after it, and each match ends before the next begins |
| Highlight.RegexComplete | src/components/SafeNetworkDetailTabs.tsx:330-344 | every occurrence at or after the scan position lies inside a reported match |
| Highlight.RegexMatchesExact | src/components/SafeNetworkDetailTabs.tsx:330-344 | the regex scan reports only case-insensitive occurrences, never overlapping, and covers every occurrence |
| Highlight.SearchSpans | src/components/SafeNetworkDetailTabs.tsx:322-345 | a blank query gives no spans; otherwise one span per regex match, in order, numbered 0, 1, 2, …, with the untrimmed query's length |
| Highlight.UuidSpans | src/components/SafeNetworkDetailTabs.tsx:349-355 | one span per detected identifier, at its position, with index −1 |
| Highlight.Candidates | src/components/SafeNetworkDetailTabs.tsx:348-357 | the candidates are a position-sorted permutation of the identifier spans and the search spans |
| Highlight.CandidatesTies | src/components/SafeNetworkDetailTabs.tsx:348-357 | at any one position the identifier spans come before the search spans, each in scan order |
| Highlight.RenderReconstructs | src/components/SafeNetworkDetailTabs.tsx:359-450 | the gaps, emitted spans and trailing text concatenate to the input text |
| Highlight.EmitMarks | src/components/SafeNetworkDetailTabs.tsx:364-366 | emitted spans start at or after the last end, do not overlap and are a subsequence of the candidates |
| Highlight.RenderMarks | src/components/SafeNetworkDetailTabs.tsx:361-442 | the spans of a rendering are disjoint, in order and drawn from the candidates |
| Highlight.HighlightMarksAreCandidates | src/components/SafeNetworkDetailTabs.tsx:348-442 | every highlighted span comes from the identifier scan or the regex scan |
| Highlight.MatchIndexPosition | src/components/SafeNetworkDetailTabs.tsx:335-343 | a candidate with a non-negative index is the regex match of that index |
| Highlight.DetailTabsIndices | src/components/SafeNetworkDetailTabs.tsx:335-343 | an emitted search span with index k is the k-th regex match, so a dropped match leaves a hole in the numbering |
| Highlight.MarksNonEmpty | src/components/SafeNetworkDetailTabs.tsx:364-441 | every emitted span is non-empty |
| Highlight.CurrentAtMostOnce | src/components/SafeNetworkDetailTabs.tsx:412 | at most one emitted span carries the current index |
| Highlight.Next | src/components/SafeNetworkDetailTabs.tsx:256-262 | an index in range stays in range, and fewer than two results leave the index alone |
| Highlight.Prev | src/components/SafeNetworkDetailTabs.tsx:264-271 | an index in range stays in range, and fewer than two results leave the index alone |
| Highlight.NextInRange | src/components/SafeNetworkDetailTabs.tsx:256-262 | "next" steps up by one and wraps from the last result to 0 |
| Highlight.PrevInRange | src/components/SafeNetworkDetailTabs.tsx:264-271 | "previous" steps down by one and wraps from 0 to the last result |
| Highlight.NextPrevInverse | src/components/SafeNetworkDetailTabs.tsx:256-271 | next and previous undo each other |
| Highlight.StepsWrap | src/components/SafeNetworkDetailTabs.tsx:256-262 | k presses of "next", for k up to n, advance the index by k and wrap once past the end |
| Highlight.FullCycle | src/components/SafeNetworkDetailTabs.tsx:256-262 | n presses of "next" return to the starting result |
| Highlight.UnguardedAgrees | src/components/SafeNetworkDetailTabs.tsx:1121-1180 | on an index in range, the unguarded arrow arithmetic agrees with the guarded one |
| DetailTabs.SafeSearch | src/components/SafeNetworkDetailTabs.tsx:173-204 | a blank query or a falsy body gives no results; otherwise one result per regex match; the index resets to 0 |
| DetailTabs.SafeResultsAt | src/components/SafeNetworkDetailTabs.tsx:186-192 | result k is at the k-th regex match and carries the body's original text there |
| DetailTabs.SafeResultsDisjoint | src/components/SafeNetworkDetailTabs.tsx:186-192 | each safe result starts after the previous one ends |
| DetailTabs.SafeResultsCover | src/components/SafeNetworkDetailTabs.tsx:186-192 | every case-insensitive occurrence lies inside some safe result |
| DetailTabs.SafeResultsMatchSpans | src/components/SafeNetworkDetailTabs.tsx:186-192 | result k sits where the highlighter draws the search span numbered k |
| DetailTabs.NetworkSearch | src/components/NetworkDetailTabs.tsx:47-72 | a blank query or a falsy body gives no results; otherwise the flat case-insensitive scan; the index resets to 0 |
| DetailTabs.SafeResultsAmongNetworkResults | src/components/NetworkDetailTabs.tsx:55-59 | every non-overlapping result position is also a flat-scan result position |
| DetailTabs.SearchVariantsDiffer | src/utils/jsonSearch.ts:179 | on "aaa" with query "aa" the regex scan finds one result and the flat scan two |
| DetailTabs.TimedOut | src/components/SafeNetworkDetailTabs.tsx:159-170 | the timeout flag is set only when the timer was armed for an absent body on a 2xx call |
| DetailTabs.ResponseTab | src/components/SafeNetworkDetailTabs.tsx:883-951 | content shows iff the body is truthy, and highlighted text reads back as the body; the spinner shows iff the body is absent on a 2xx call before the timeout; an empty body shows "No response body" |
| DetailTabs.SpinnerUntilTimeout | src/components/SafeNetworkDetailTabs.tsx:159-170 | with the timer modelled, the spinner shows exactly until it fires, and then "Failed to load" |
| DetailTabs.RefreshIffNoContent | src/components/SafeNetworkDetailTabs.tsx:1229 | the refresh button shows iff the call is 2xx and the tab shows no content |
| DetailTabs.HeaderEntries | src/components/NetworkDetailTabs.tsx:440-442 | `Object.entries` of the request headers: absent headers give none (the call throws); array element k gives the pair ("k", "[object Object]"); map entry k gives its key and its template text |
| DetailTabs.DetailCurlWritesEntries | src/components/NetworkDetailTabs.tsx:437-449 | absent headers give none (the call throws); for present headers of either shape the command is the request line, then one ` -H "k: v"` line per `Object.entries` pair in order, then ` -d '<body>'` only when a POST, PUT or PATCH call has a body |
| DetailTabs.DetailCurlArrayHeader | src/components/NetworkDetailTabs.tsx:440-442 | an array header `{name: "A", value: "b"}` is written as ` -H "0: [object Object]"` |
| DetailTabs.DetailCurlBodyBreaks | src/components/NetworkDetailTabs.tsx:447-449 | for the POST body "it's" the written last word does not read back |
| DetailTabs.DetailCurlEscaped | src/components/NetworkDetailTabs.tsx:437-449 | with the body escaped, the command fails exactly when the headers are absent |
| DetailTabs.DetailCurlEscapedRoundTrip | src/components/NetworkDetailTabs.tsx:447-449 | with the escape, the last word reads back as exactly the body |
| DetailTabs.DetailCurlEscapedAgrees | src/components/NetworkDetailTabs.tsx:447-449 | for a body without a single quote, the escaped and unescaped versions agree |
| DetailTabs.DetailCurlAgreesWithMenu | src/components/NetworkDetailTabs.tsx:437-449 | for a recorded method, plain headers and a quote-free body, the tab's cURL equals the copy menu's bash cURL |
| JsonViewer.Toggle | src/components/JsonViewer.tsx:30-35 | toggling flips the collapse state of exactly one path |
| JsonViewer.ToggleTwice | src/components/JsonViewer.tsx:30-42 | toggling a path twice restores every path's state |
| JsonViewer.InitiallyExpanded | src/components/JsonViewer.tsx:26-42 | every node starts expanded |
| JsonViewer.RenumberConsecutive | src/components/JsonViewer.tsx:155-158 | renumbering keeps the displayed text and gives the search spans consecutive indices from the incoming counter |
| JsonViewer.RenderValueIndices | src/components/JsonViewer.tsx:225-378 | the search spans rendered under a node carry exactly the indices from the incoming counter to the outgoing one, in render order |
| JsonViewer.RootIndices | src/components/JsonViewer.tsx:227-230 | a whole rendering numbers its search spans 0..k−1, so at most one is current |
| JsonViewer.CollapsedConsumesNothing | src/components/JsonViewer.tsx:267-291 | a collapsed container renders nothing and consumes no index |
| JsonViewer.RenderShowsVisible | src/components/JsonViewer.tsx:254-363 | the rendered leaves display exactly the visible string values, at their paths, in order |
| HistoricalLoader.Put | src/utils/historicalNetworkLoader.ts:29 | after the assignment the key reads back the value and every other key is unchanged; an existing key keeps its place |
| HistoricalLoader.CollectLookup | src/utils/historicalNetworkLoader.ts:25-41 | each name maps to the value of the last kept header with that name; skipped headers leave no trace; names are distinct |
| HistoricalLoader.CollectNonEmpty | src/utils/historicalNetworkLoader.ts:28 | every map entry has a non-empty name and value |
| HistoricalLoader.Convert | src/utils/historicalNetworkLoader.ts:14-64 | an entry converts to nothing exactly when its request or response is missing |
| HistoricalLoader.ConvertFields | src/utils/historicalNetworkLoader.ts:44-57 | defaults "", "GET", 0 and 0; no response body; the request body is the post data; the id is the request id when truthy; the error text is "HTTP <status>" exactly when the status is 400 or more |
| HistoricalLoader.ConvertAllMembership | src/utils/historicalNetworkLoader.ts:138-140 | a call is loaded exactly when some entry with both sides converts to it |
| HistoricalLoader.Chunks | src/utils/historicalNetworkLoader.ts:124-129 | every chunk holds 1 to 50 entries and all but the last are full |
| HistoricalLoader.ChunksFlatten | src/utils/historicalNetworkLoader.ts:124-129 | the chunks concatenate back to the entry list |
| HistoricalLoader.ChunkLoopIsConvertAll | src/utils/historicalNetworkLoader.ts:132-143 | converting chunk by chunk equals converting the whole list |
| HistoricalLoader.LoadHistorical | src/utils/historicalNetworkLoader.ts:70-162 | at most one error, and with an error there are no calls and no total |
| HistoricalLoader.LoadHistoricalOutcome | src/utils/historicalNetworkLoader.ts:82-161 | a missing API gives exactly its message; a delivered log counts every entry and yields the converted calls in entry order, with no errors; anything else gives one error and no calls |
| HistoricalLoader.LoadWithProgress | src/utils/historicalNetworkLoader.ts:225-294 | at most one error; on success one report per loaded call after the initial (0, total) report, with counts strictly increasing and never above the total |
| HistoricalLoader.ProgressMatchesChunked | src/utils/historicalNetworkLoader.ts:248-271 | on a non-empty entry list the progress loader loads what the chunked loader loads |
| HistoricalLoader.EmptyLogDiffers | src/utils/historicalNetworkLoader.ts:248-252 | on an empty entry list the chunked loader succeeds and the progress loader reports an error |
| HistoricalLoader.ResponseContent | src/utils/historicalNetworkLoader.ts:168-220 | content, when returned, is non-empty; a missing API, a failed HAR call or a log without entries gives none |
| HistoricalLoader.ResponseContentFirstMatch | src/utils/historicalNetworkLoader.ts:197-214 | the result is exactly the response text of the first entry with the id when that text is non-empty, and nothing otherwise or when no entry has the id |
| FilterPanel.ToggleOption | src/components/FilterPanel.tsx:53-59 | the option's membership flips and every other value's is kept; an unselected option is appended at the end; removing a selected option keeps the others in order with their number of copies |
| FilterPanel.ToggleTwiceMembership | src/components/FilterPanel.tsx:53-59 | toggling twice restores the membership of every option |
| FilterPanel.ToggleTwiceRestores | src/components/FilterPanel.tsx:53-59 | from an unselected option, toggling twice restores the selection exactly |
| FilterPanel.DisplayTextShows | src/components/FilterPanel.tsx:61-66 | no selection shows the placeholder, one shows itself, and two or more show "<n> selected" whose leading digits read back as n |
| FilterPanel.ToggleCaption | src/components/FilterPanel.tsx:53-66 | toggling an option into an empty selection captions it, and toggling it out restores the placeholder |
| FilterPanel.AddDrafts | src/components/FilterPanel.tsx:224-288 | a blank name gives no rule; k methods give k rules, the j-th with methods[j] and name "<name> (<method>)"; no method gives one method-less rule; all are active and keep the form's fields |
| FilterPanel.HandleAddAsWritten | src/components/FilterPanel.tsx:234-251 | the batch adds at most one rule |
| FilterPanel.HandleAddAsWrittenKeepsLast | src/components/FilterPanel.tsx:234-251 | with two or more methods only the last method's rule survives, so fewer rules are added than methods were selected |
| FilterPanel.HandleAddAsWrittenExample | src/components/FilterPanel.tsx:234-251 | "Orders" with GET and POST yields the single rule "Orders (POST)" |
| FilterPanel.HandleAddAppendsOnePerMethod | src/components/FilterPanel.tsx:224-269 | with additions applied in turn, a blank name adds nothing; otherwise the existing rules stay in front and one active rule per selected method follows in selection order |
| FilterPanel.EditFormFor | src/components/FilterPanel.tsx:306-322 | absent rule fields load as "", false or an empty list |
| FilterPanel.SaveEdit | src/components/FilterPanel.tsx:324-356 | nothing is saved without an edited rule or with a blank name; an empty method or URL pattern is saved as absent |
| FilterPanel.SaveEditNormalises | src/components/FilterPanel.tsx:324-340 | a saved rule keeps its id and comes out normal |
| FilterPanel.EditSaveRoundTrip | src/components/FilterPanel.tsx:306-340 | opening a normal rule and saving it unchanged gives the rule back |
| FilterPanel.SaveEditUpdatesOnlyEdited | src/components/FilterPanel.tsx:324-340 | saving touches only the edited rule and keeps the list's length |
| FilterPanel.AddedEmptyPatternIsNotNormal | src/components/FilterPanel.tsx:252-269 | an added rule with an empty URL pattern stores it as present, which an edit save turns into absent |
| FilterPanel.Heading | src/components/FilterPanel.tsx:404 | the heading claims conjunction iff some rule is active |
| CopyCommands.EmittedPairs | src/components/CopyDropdown.tsx:97-115 | every emitted header pair has a non-empty name |
| CopyCommands.HeaderLinesArePairs | src/components/CopyDropdown.tsx:97-115 | the test-and-write loop writes one line per emitted pair, in header order |
| CopyCommands.EmittedPairsAreTruthy | src/components/CopyDropdown.tsx:97-115 | every emitted pair comes from a header with a name and a truthy value, rendered as the source renders it |
| CopyCommands.ShellRoundTrip | src/components/CopyDropdown.tsx:117-120 | the shell reads the escaped single-quoted word back as exactly the body |
| CopyCommands.GenerateCurl | src/components/CopyDropdown.tsx:91-122 | the command starts with the program and request line and, for a body method with a body, ends with the quoted escaped body |
| CopyCommands.CurlCmdOnlyRenames | src/components/CopyDropdown.tsx:94 | the cmd variant differs from the bash one only in the program name |
| CopyCommands.CurlWritesPairsAndBody | src/components/CopyDropdown.tsx:91-122 | the headers written are exactly the emitted pairs, and the last word of a command with a body reads back as the body |
| CopyCommands.PowerShellHeaders | src/components/CopyDropdown.tsx:131-149 | the header block is absent exactly when the headers are empty |
| CopyCommands.PowerShellWritesHeadersAndBody | src/components/CopyDropdown.tsx:125-156 | the command is the URI and method, then the `-Headers @{…}` hash of every named array item or kept map entry when the headers are a non-empty array or map, then ` -Body '<body>'` unescaped only when a POST, PUT or PATCH call has a body |
| CopyCommands.PowerShellObjectPairs | src/components/CopyDropdown.tsx:138-148 | for map-shaped headers the hash lists exactly the emitted pairs |
| CopyCommands.PowerShellKeepsValuelessItem | src/components/CopyDropdown.tsx:132-137 | for array-shaped headers the hash also lists a named item without a value, which cURL and fetch skip |
| CopyCommands.FetchWritesPairsAndBody | src/components/CopyDropdown.tsx:165-197 | the text is the `fetch` and method lines, then the `headers: {…}` block with one line per emitted pair when the headers are a non-empty array or map, then the body line only when a POST, PUT or PATCH call has a body, then "});" |
| CopyCommands.GenerateFetch | src/components/CopyDropdown.tsx:158-199 | the Node variant is the `require` line followed by the browser text |
| CopyCommands.FetchNodeAddsRequire | src/components/CopyDropdown.tsx:158-199 | the Node variant adds only the `require` line, and both variants close with "});" |
| CopyCommands.FetchWritesSamePairs | src/components/CopyDropdown.tsx:170-193 | the fetch header block lists exactly the pairs the cURL command writes |
| CopyCommands.HeaderTextLines | src/components/CopyDropdown.tsx:202-218 | one "name: value" line per header, in order |
| CopyCommands.HeadersTextLines | src/components/CopyDropdown.tsx:202-218 | when no header text holds a newline, splitting the text on newlines gives one line per header |
| CopyCommands.AllVariantsInOrder | src/components/CopyDropdown.tsx:220-234 | capturing one more call appends its single-call text after "\n\n" ("\n" for URLs) |
| CopyCommands.AllUrlsLines | src/components/CopyDropdown.tsx:220-222 | URLs without newlines are recovered one per line |
| CopyCommands.FormatsPartitioned | src/components/CopyDropdown.tsx:268-307 | every menu format is a single-call format or an all-calls format, never both |
| CopyCommands.CopyTextUnknown | src/components/CopyDropdown.tsx:304-305 | a format outside the menu copies "" |
| CopyCommands.CopyTextScope | src/components/CopyDropdown.tsx:268-307 | single-call formats ignore the call list, and all-calls formats ignore the selected call |
| CopyCommands.FindOption | src/components/CopyDropdown.tsx:355 | a label found belongs to an option with that value, and none is found only when no option has it |
| CopyCommands.DisplayTextDropsCopy | src/components/CopyDropdown.tsx:354-357 | only the leading "Copy " is removed, so "Copy all URLs" shows as "all URLs" |
| CallList.StartIndex | src/components/VirtualizedNetworkCallList.tsx:32-35 | the first rendered row starts at or above the scroll offset |
| CallList.EndIndex | src/components/VirtualizedNetworkCallList.tsx:36-39 | the last rendered index never exceeds the last call |
| CallList.VisibleItems | src/components/VirtualizedNetworkCallList.tsx:44-46 | the rows are the calls from the start to the end index inclusive, and none for an empty list or a start past the end |
| CallList.RowsInViewAreRendered | src/components/VirtualizedNetworkCallList.tsx:30-46 | every row intersecting the viewport lies between the start and end index |
| CallList.VisibleRowIndex | src/components/VirtualizedNetworkCallList.tsx:269-270 | row k of the window is call start + k |
| CallList.WindowInsideSpacer | src/components/VirtualizedNetworkCallList.tsx:239-262 | the rendered window lies inside the full-height spacer |
| CallList.StatusColourClasses | src/components/VirtualizedNetworkCallList.tsx:81-86 | green is exactly 2xx, orange 3xx, red 400 and above, grey below 200 |
| CallList.MethodColourIgnoresCase | src/components/VirtualizedNetworkCallList.tsx:66-79 | the method colour ignores letter case |
| CallList.UrlParts | src/components/NetworkCallList.tsx:187-196 | a URL without an identifier is one plain part |
| CallList.UrlPartsFaithful | src/components/NetworkCallList.tsx:187-235 | the parts read back as the URL, the identifier parts are the extracted identifiers, and text and identifiers alternate |
| CallList.FullList | src/components/NetworkCallList.tsx:243-312 | an empty list shows the empty state; otherwise one row per call, in order, whose URL parts read back as the URL |
| CallList.VirtualList | src/components/VirtualizedNetworkCallList.tsx:239-340 | an empty list shows the empty state, and the spacer is 120 per call |
| CallList.VirtualRowsAreWindow | src/components/VirtualizedNetworkCallList.tsx:44-46 | the virtual list shows the full list's rows from the start to the end index, or nothing past the end |
| CallList.ListCurlIsMenuCurl | src/components/NetworkCallList.tsx:61-112 | the row's cURL equals the copy menu's bash cURL |
| CallList.ListCurlBodyReadsBack | src/components/VirtualizedNetworkCallList.tsx:133-139 | the row's cURL ends with a body word that reads back as the body |
| ProgressiveLoading.FindStage | src/hooks/useProgressiveLoading.ts:68-70 | the index is the first stage with the id, or −1 when there is none |
| ProgressiveLoading.MeanBounds | src/hooks/useProgressiveLoading.ts:74-76 | when every stage's progress lies in [lo, hi], so does the overall progress |
| ProgressiveLoading.UpdateStage | src/hooks/useProgressiveLoading.ts:59-89 | stages keep their number; the state is complete iff every stage is, and then the current stage is "ready"; the overall progress is the mean |
| ProgressiveLoading.UpdateTouchesOnlyId | src/hooks/useProgressiveLoading.ts:62-66 | exactly the stages with the id take the progress and the flag, which defaults to progress ≥ 100; the others are unchanged |
| ProgressiveLoading.UnknownIdKeepsStages | src/hooks/useProgressiveLoading.ts:62-66 | an unknown id leaves every stage unchanged |
| ProgressiveLoading.CurrentStageAfterUpdate | src/hooks/useProgressiveLoading.ts:68-81 | the current stage moves to the next one only when completion was passed as true and that stage exists; otherwise it is the updated id |
| ProgressiveLoading.CompleteAllStages | src/hooks/useProgressiveLoading.ts:113-116 | after a run of completions exactly the named stages are finished at 100 |
| ProgressiveLoading.CompletingEveryStageFinishes | src/hooks/useProgressiveLoading.ts:94-123 | completing every stage, in any order, finishes loading at "ready" with progress 100 |
| ProgressiveLoading.StartLoadingFinishes | src/hooks/useProgressiveLoading.ts:113-123 | both orders of the last two completions finish loading |
| ProgressiveLoading.CompletionOverridesTick | src/hooks/useProgressiveLoading.ts:109-115 | a tick followed by completion of the same stage leaves what the completion alone leaves |
| ProgressiveLoading.SetError | src/hooks/useProgressiveLoading.ts:91-93 | only the error changes |
| ProgressiveLoading.ErrorStopsLoading | src/hooks/useProgressiveLoading.ts:142 | after an error the tracker is loading iff it is not complete and the message is empty |
| ProgressiveLoading.CurrentStageInfo | src/hooks/useProgressiveLoading.ts:126-134 | the name and progress of the first stage with the current id, or "Loading..." and 0 |
| ProgressiveLoading.InitialInfo | src/hooks/useProgressiveLoading.ts:18-57 | at start-up the first stage shows at 0 and loading is on |
| ApiDocs.IsServiceCallIff | src/services/shipwellApi.ts:43-45 | a URL is recognised iff it contains "shipwell" |
| ApiDocs.ParseBraceFree | src/services/shipwellApi.ts:59 | a template without braces is its own text |
| ApiDocs.ParseTrailingParam | src/services/shipwellApi.ts:59 | a literal followed by one placeholder parses as the literal and one parameter |
| ApiDocs.LiteralMatches | src/services/shipwellApi.ts:59-61 | a literal template matches exactly its own text |
| ApiDocs.ParamLastMatches | src/services/shipwellApi.ts:59-61 | a literal template with a trailing placeholder matches its text followed by a non-empty segment without "/" |
| ApiDocs.LiteralRoute | src/services/shipwellApi.ts:59-61 | a brace-free route matches exactly the paths ending with it |
| ApiDocs.AnchoredAtEndOnly | src/services/shipwellApi.ts:60 | anything before a matching path still matches |
| ApiDocs.FindDoc | src/services/shipwellApi.ts:58-63 | the index is that of the first entry whose route and method match, or none matches |
| ApiDocs.DocumentationForCall | src/services/shipwellApi.ts:47-65 | a non-service URL gives nothing; otherwise the first entry whose route and upper-cased method match, or nothing when none does |
| ApiDocs.MethodCaseIgnored | src/services/shipwellApi.ts:55 | the request method's letter case does not matter |
| ApiDocs.FindDocFirst | src/services/shipwellApi.ts:58-63 | the lookup returns the first matching index |
| ApiDocs.ShipmentListRoute | src/services/shipwellApi.ts:6 | the shipment list route matches exactly the paths ending in "/api/v2/shipments" |
| ApiDocs.ShipmentItemRoute | src/services/shipwellApi.ts:18 | the shipment item route is its prefix followed by one placeholder |
| ApiDocs.ShipmentUpdateLookup | src/services/shipwellApi.ts:23-28 | a PUT in any case to "/api/v2/shipments/<segment>" on the service finds the update entry |
| ApiDocs.OtherHostLookup | src/services/shipwellApi.ts:51-53 | a URL not mentioning the service finds nothing |
| ApiDocs.AllDocumentation | src/services/shipwellApi.ts:67-69 | the copy equals the table entry by entry |
| ApiDocs.SearchDocumentation | src/services/shipwellApi.ts:71-79 | an entry is kept iff its endpoint, description or method contains the query ignoring case, in table order |
| ApiDocs.SearchIgnoresCase | src/services/shipwellApi.ts:72 | the query's letter case does not matter |
| ApiDocs.EmptySearchIsAll | src/services/shipwellApi.ts:71-79 | an empty query keeps the whole table |

## Left out

- `isValidUUID`: not modelled. It calls `test` on the shared global regex, which leaves `lastIndex` set. A later `detectUUIDs` call on another text can then start scanning past the beginning (`uuid.ts:43-45`). The model's scan always starts at 0.
- Clipboard, DOM and React effects are not modelled: scrolling into view, `setTimeout` delays, hover handlers, the expand/collapse-all pulses, `copyUUIDToClipboard`, `insertUUIDIntoInput` and `generateUUID`. Only the texts, segments and indices they consume are modelled.
- Chrome APIs (`onRequestFinished`, `getContent`, `getHAR`, `runtime.lastError`) are inputs. An event, a HAR outcome or content delivery is a datatype value, and API availability is a boolean.
- `HistoricalLoader.LoadWithProgress`: a `getHAR` failure is not modelled, because the progress variant never checks `lastError`. The log it receives is an input.
- Time and randomness are parameters: `Date.now`, `Math.random`, synthetic ids, `Date` parsing of `startedDateTime`, and `performance.now` (`loadTime` is not part of the result).
- `ProgressiveLoading.StartLoadingFinishes`: the `startLoading` timers are not scheduled. Only the completion orders they can produce are modelled, and random progress ticks are arbitrary reals.
- Floating point: progress values are reals, and the mean of an empty stage list (NaN in the source) is `None`.
- `CallList.StartIndex`: the scroll offset is a natural number. Fractional offsets are not modelled.
- `JSON.parse` is an input: a given JSON value, or `None` for a parse failure. `JSON.stringify` of the request headers is an uninterpreted function parameter. `generateHarData` and the "all-har" text are not modelled for that reason.
- `ApiDocs.DocumentationForCall`: the URL's pathname is a parameter. A `new URL` that throws is not modelled.
- Object key order follows insertion. JavaScript's hoisting of integer-like keys is not modelled.
- `JsonSearch.StructuredSearch`: `localeCompare` is modelled as code-unit order of the paths.
- Case mapping is ASCII only. Unicode case folding would change lengths.
- `JsonSearch.Truncate50`: the 50-character limit counts `seq<char>` elements (Unicode scalar values), while `length` and `substring` count UTF-16 code units. A value with characters outside the Basic Multilingual Plane is cut at another place, and a cut inside a surrogate pair cannot be represented.
- `Uuid.ContextWindow`: the 20-before and 40-after window counts characters, not UTF-16 code units, for the same reason. `Uuid.Context` and `Uuid.ContextShowsMatch` share this unit.
- `JsonSearch.StringHits`: every reported `position` and `length` counts characters, not UTF-16 code units. So do `JsonSearch.FlatScanSound`, `Uuid.Detect` and the highlight spans. The two units agree on text inside the Basic Multilingual Plane.
- `CopyCommands.GeneratePowerShell`: a missing header value, which the source prints as "undefined", is printed as "".
- The single-quote reader covers only quoting. It performs no expansions: no variables, escapes or globbing.
- `ApiDocs.Parse`: only `{…}` placeholders are translated. Other regular-expression metacharacters in a route are read literally, which agrees with the table's routes.
- localStorage persistence, the 300 ms debounce, and `refreshResponseBody` are outside this model.

## Findings

| source | as written | input that shows it | evidently intended | confidence | as-written member | corrected member |
|---|---|---|---|---|---|---|
| src/components/FilterPanel.tsx:234-251 | each `onAddFilter` call runs `setFilters([...filters, rule])` (useNetworkCalls.ts:356-363) on the same captured `filters`, so each call overwrites the previous one | name "Orders", methods GET and POST: only "Orders (POST)" is added | one rule per selected method, each appended to the list the previous addition produced | not executed | FilterPanel.HandleAddAsWrittenKeepsLast | FilterPanel.HandleAddAppendsOnePerMethod |
| src/components/NetworkDetailTabs.tsx:447-449 | the body goes into ` -d '…'` without escaping `'` | POST body "it's": the shell sees `'it's'` and the quoted word ends early | escape `'` as `'"'"'`, as CopyDropdown.tsx:118 and both call lists do | not executed | DetailTabs.DetailCurlBodyBreaks | DetailTabs.DetailCurlEscapedRoundTrip |
