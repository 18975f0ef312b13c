/**
 * Loading the calls DevTools recorded before the panel opened: HAR entry
 * conversion, the chunked loader, the progress variant and the on-demand
 * response-content lookup. `getHAR` is an input (`HarOutcome`), and the
 * clock and random source are parameters.
 */
module HistoricalLoader {
  import opened Wrappers
  import opened Strings
  import opened Seqs
  import opened Calls
  import NetworkCalls

  // ---------------------------------------------------------------------
  // HAR data
  // ---------------------------------------------------------------------

  /** A HAR header; "" stands for a falsy name or value. */
  datatype HarHeader = HarHeader(name: string, value: string)

  /** `headers` is `None` when absent or not an array. */
  datatype HarRequest = HarRequest(
    url: string,
    httpMethod: string,
    headers: Option<seq<HarHeader>>,
    postDataText: Option<string>)

  datatype HarResponse = HarResponse(
    status: nat,
    statusText: string,
    headers: Option<seq<HarHeader>>,
    contentText: Option<string>)

  /**
   * One HAR entry. `started` is the parsed `startedDateTime` when that is
   * truthy; `time` is 0 when falsy.
   */
  datatype HarEntry = HarEntry(
    requestId: Option<string>,
    request: Option<HarRequest>,
    response: Option<HarResponse>,
    started: Option<int>,
    time: int)

  /** `harLog`: absent, or present with `entries` (`None` when not an array). */
  datatype HarLog = HarLog(entries: Option<seq<HarEntry>>)

  /** What `getHAR` hands back: a rejection with `runtime.lastError`'s message, or the log. */
  datatype HarOutcome = HarFailed(message: string) | HarDelivered(log: Option<HarLog>)

  // ---------------------------------------------------------------------
  // Header arrays to maps
  // ---------------------------------------------------------------------

  /** A plain object built by assignment: entries in insertion order. */
  type StringMap = seq<(string, string)>

  function Keys(m: StringMap): (r: seq<string>)
    ensures |r| == |m|
    ensures forall i | 0 <= i < |m| :: r[i] == m[i].0
  {
    seq(|m|, i requires 0 <= i < |m| => m[i].0)
  }

  function Lookup(m: StringMap, k: string): Option<string> {
    if |m| == 0 then None
    else if m[0].0 == k then Some(m[0].1)
    else Lookup(m[1..], k)
  }

  predicate DistinctKeys(m: StringMap) {
    forall i, j | 0 <= i < j < |m| :: m[i].0 != m[j].0
  }

  /**
   * `obj[k] = v`: an existing key keeps its place and takes the new value;
   * a new key goes last.
   */
  function Put(m: StringMap, k: string, v: string): (r: StringMap)
    ensures k in Keys(m) ==> Keys(r) == Keys(m)
    ensures k !in Keys(m) ==> Keys(r) == Keys(m) + [k]
    ensures Lookup(r, k) == Some(v)
    ensures forall j | j != k :: Lookup(r, j) == Lookup(m, j)
  {
    if |m| == 0 then [(k, v)]
    else if m[0].0 == k then [(k, v)] + m[1..]
    else
      var rest := Put(m[1..], k, v);
      assert Keys(m) == [m[0].0] + Keys(m[1..]);
      assert ([m[0]] + rest)[1..] == rest;
      [m[0]] + rest
  }

  lemma PutKeepsDistinct(m: StringMap, k: string, v: string)
    requires DistinctKeys(m)
    ensures DistinctKeys(Put(m, k, v))
  {
    var r := Put(m, k, v);
    forall i, j | 0 <= i < j < |r| ensures r[i].0 != r[j].0 {
      assert Keys(r)[i] == r[i].0 && Keys(r)[j] == r[j].0;
      if k !in Keys(m) && j == |m| {
        assert Keys(m)[i] == m[i].0;
      } else {
        assert Keys(r)[i] == Keys(m)[i] && Keys(r)[j] == Keys(m)[j];
      }
    }
  }

  /** `if (header.name && header.value)`. */
  predicate KeptHeader(h: HarHeader) {
    h.name != "" && h.value != ""
  }

  /** The `forEach` over a header array, one assignment per kept header. */
  function Collect(hs: seq<HarHeader>): StringMap
    decreases |hs|
  {
    if |hs| == 0 then []
    else
      var m := Collect(hs[..|hs| - 1]);
      var h := hs[|hs| - 1];
      if KeptHeader(h) then Put(m, h.name, h.value) else m
  }

  /** Reference definition: the value of the last kept header with this name. */
  function LastValue(hs: seq<HarHeader>, k: string): Option<string>
    decreases |hs|
  {
    if |hs| == 0 then None
    else
      var h := hs[|hs| - 1];
      if KeptHeader(h) && h.name == k then Some(h.value) else LastValue(hs[..|hs| - 1], k)
  }

  /**
   * The map holds, for every name, the value of the last kept header with
   * that name (a later duplicate overwrites an earlier one); skipped
   * headers leave no trace; every name occurs once.
   */
  lemma {:induction false} CollectLookup(hs: seq<HarHeader>, k: string)
    ensures Lookup(Collect(hs), k) == LastValue(hs, k)
    ensures DistinctKeys(Collect(hs))
    decreases |hs|
  {
    if |hs| > 0 {
      var h := hs[|hs| - 1];
      CollectLookup(hs[..|hs| - 1], k);
      if KeptHeader(h) {
        PutKeepsDistinct(Collect(hs[..|hs| - 1]), h.name, h.value);
      }
    }
  }

  /** Every entry of the map comes with a non-empty name and value. */
  lemma {:induction false} CollectNonEmpty(hs: seq<HarHeader>)
    ensures forall i | 0 <= i < |Collect(hs)| :: Collect(hs)[i].0 != "" && Collect(hs)[i].1 != ""
    decreases |hs|
  {
    if |hs| > 0 {
      var m := Collect(hs[..|hs| - 1]);
      var h := hs[|hs| - 1];
      CollectNonEmpty(hs[..|hs| - 1]);
      if KeptHeader(h) {
        PutNonEmpty(m, h.name, h.value);
      }
    }
  }

  lemma {:induction false} PutNonEmpty(m: StringMap, k: string, v: string)
    requires k != "" && v != ""
    requires forall i | 0 <= i < |m| :: m[i].0 != "" && m[i].1 != ""
    ensures forall i | 0 <= i < |Put(m, k, v)| :: Put(m, k, v)[i].0 != "" && Put(m, k, v)[i].1 != ""
    decreases |m|
  {
    if |m| > 0 && m[0].0 != k {
      PutNonEmpty(m[1..], k, v);
    }
  }

  /** The converted header map, as the panel's object-shaped headers. */
  function HeaderMap(hs: Option<seq<HarHeader>>): (r: Headers)
    ensures r.ObjectForm?
  {
    var m := if hs.Some? then Collect(hs.value) else [];
    ObjectForm(seq(|m|, i requires 0 <= i < |m| => (m[i].0, Text(m[i].1))))
  }

  // ---------------------------------------------------------------------
  // Entry conversion
  // ---------------------------------------------------------------------

  /**
   * `convertHarEntryToNetworkCall(entry)`: `None` when the request or the
   * response is missing. `syntheticId` stands for the `historical_…` id and
   * `now` for `Date.now()`.
   */
  function Convert(e: HarEntry, syntheticId: string, now: int): (r: Option<CallRecord>)
    ensures r.None? <==> e.request.None? || e.response.None?
  {
    if e.request.None? || e.response.None? then None
    else
      var req := e.request.value;
      var resp := e.response.value;
      Some(CallRecord(
        if Truthy(e.requestId) then e.requestId.value else syntheticId,
        req.url,
        Or(req.httpMethod, "GET"),
        resp.status,
        resp.statusText,
        HeaderMap(req.headers),
        HeaderMap(resp.headers),
        req.postDataText,
        None,
        if e.started.Some? then e.started.value else now,
        e.time,
        NetworkCalls.HttpErrorText(resp.status)))
  }

  /** The defaults and derived fields of a converted call. */
  lemma ConvertFields(e: HarEntry, syntheticId: string, now: int)
    requires e.request.Some? && e.response.Some?
    ensures var c := Convert(e, syntheticId, now).value;
            && (c.httpMethod == "GET" <==> e.request.value.httpMethod in {"", "GET"})
            && c.responseBody.None?
            && c.requestBody == e.request.value.postDataText
            && (c.id == syntheticId <==> !Truthy(e.requestId) || e.requestId.value == syntheticId)
            && (c.error.Some? <==> c.status >= 400)
            && (c.error.Some? ==> c.error.value == "HTTP " + NatToString(c.status))
            && c.requestHeaders.ObjectForm? && c.responseHeaders.ObjectForm?
  {
  }

  /** The id source for each entry (synthetic ids differ from call to call). */
  type IdSource = HarEntry -> string

  /** `entries.map(convert).filter(call => call !== null)`. */
  function ConvertAll(es: seq<HarEntry>, ids: IdSource, now: int): (r: seq<CallRecord>)
    ensures |r| <= |es|
  {
    if |es| == 0 then []
    else
      var c := Convert(es[0], ids(es[0]), now);
      (if c.Some? then [c.value] else []) + ConvertAll(es[1..], ids, now)
  }

  lemma {:induction false} ConvertAllAppend(a: seq<HarEntry>, b: seq<HarEntry>, ids: IdSource, now: int)
    ensures ConvertAll(a + b, ids, now) == ConvertAll(a, ids, now) + ConvertAll(b, ids, now)
  {
    if |a| == 0 {
      assert a + b == b;
    } else {
      assert (a + b)[1..] == a[1..] + b;
      ConvertAllAppend(a[1..], b, ids, now);
      var c := Convert(a[0], ids(a[0]), now);
      AppendAssoc(if c.Some? then [c.value] else [], ConvertAll(a[1..], ids, now), ConvertAll(b, ids, now));
    }
  }

  /** A call is loaded exactly when some entry with both sides converts to it. */
  lemma {:induction false} ConvertAllMembership(es: seq<HarEntry>, ids: IdSource, now: int, c: CallRecord)
    ensures c in ConvertAll(es, ids, now) <==> exists i | 0 <= i < |es| :: Convert(es[i], ids(es[i]), now) == Some(c)
  {
    if |es| > 0 {
      ConvertAllMembership(es[1..], ids, now, c);
      var h := Convert(es[0], ids(es[0]), now);
      var rest := ConvertAll(es[1..], ids, now);
      assert ConvertAll(es, ids, now) == (if h.Some? then [h.value] else []) + rest;
      if exists i | 0 <= i < |es| :: Convert(es[i], ids(es[i]), now) == Some(c) {
        var i :| 0 <= i < |es| && Convert(es[i], ids(es[i]), now) == Some(c);
        if i > 0 {
          assert es[1..][i - 1] == es[i];
        }
      }
      if c in rest {
        var i :| 0 <= i < |es[1..]| && Convert(es[1..][i], ids(es[1..][i]), now) == Some(c);
        assert es[i + 1] == es[1..][i];
      }
    }
  }

  // ---------------------------------------------------------------------
  // The chunked loader
  // ---------------------------------------------------------------------

  const ChunkSize: nat := 50

  /** `for (i = 0; i < n; i += size) chunks.push(entries.slice(i, i + size))`. */
  function Chunks<T>(s: seq<T>, size: nat): (r: seq<seq<T>>)
    requires size > 0
    ensures forall k | 0 <= k < |r| :: 0 < |r[k]| <= size
    ensures forall k | 0 <= k < |r| - 1 :: |r[k]| == size
    decreases |s|
  {
    if |s| == 0 then []
    else if |s| <= size then [s]
    else [s[..size]] + Chunks(s[size..], size)
  }

  /** The chunks concatenate back to the entry list. */
  lemma {:induction false} ChunksFlatten<T>(s: seq<T>, size: nat)
    requires size > 0
    ensures Flatten(Chunks(s, size)) == s
    decreases |s|
  {
    if |s| > size {
      ChunksFlatten(s[size..], size);
      var r := Chunks(s, size);
      assert r[1..] == Chunks(s[size..], size);
      assert s[..size] + s[size..] == s;
    } else if |s| > 0 {
      assert Flatten([s]) == s + Flatten<T>([]);
    }
  }

  /** `for (chunk of chunks) result.calls.push(...converted chunk)`. */
  function ChunkLoop(chunks: seq<seq<HarEntry>>, ids: IdSource, now: int): seq<CallRecord> {
    if |chunks| == 0 then []
    else ConvertAll(chunks[0], ids, now) + ChunkLoop(chunks[1..], ids, now)
  }

  lemma {:induction false} ChunkLoopIsConvertAll(chunks: seq<seq<HarEntry>>, ids: IdSource, now: int)
    ensures ChunkLoop(chunks, ids, now) == ConvertAll(Flatten(chunks), ids, now)
  {
    if |chunks| > 0 {
      ChunkLoopIsConvertAll(chunks[1..], ids, now);
      ConvertAllAppend(chunks[0], Flatten(chunks[1..]), ids, now);
    }
  }

  datatype LoadResult = LoadResult(calls: seq<CallRecord>, totalRequests: nat, errors: seq<string>)

  const ApiMissing := "Chrome DevTools network.getHAR API not available"
  const InvalidHar := "Invalid HAR data received from DevTools"

  /** `loadHistoricalNetworkData()`; `loadTime` is left out. */
  function LoadHistorical(apiAvailable: bool, har: HarOutcome, ids: IdSource, now: int): (r: LoadResult)
    ensures |r.errors| <= 1
    ensures |r.errors| == 1 ==> r.calls == [] && r.totalRequests == 0
  {
    if !apiAvailable then LoadResult([], 0, [ApiMissing])
    else match har
      case HarFailed(message) => LoadResult([], 0, [message])
      case HarDelivered(log) =>
        if log.None? || log.value.entries.None? then LoadResult([], 0, [InvalidHar])
        else
          var es := log.value.entries.value;
          LoadResult(ChunkLoop(Chunks(es, ChunkSize), ids, now), |es|, [])
  }

  /** The entries a successful load reads. */
  predicate Delivered(apiAvailable: bool, har: HarOutcome, es: seq<HarEntry>) {
    apiAvailable && har == HarDelivered(Some(HarLog(Some(es))))
  }

  /**
   * A load either fails with exactly one error and no calls, or counts
   * every entry and yields, in entry order, the calls of the entries that
   * convert: chunking changes nothing and skipped entries add no error.
   */
  lemma LoadHistoricalOutcome(apiAvailable: bool, har: HarOutcome, ids: IdSource, now: int)
    ensures var r := LoadHistorical(apiAvailable, har, ids, now);
            && (!apiAvailable ==> r.errors == [ApiMissing])
            && (forall es :: Delivered(apiAvailable, har, es) ==>
                  r.errors == [] && r.totalRequests == |es| >= |r.calls|
                  && r.calls == ConvertAll(es, ids, now))
            && ((!exists es :: Delivered(apiAvailable, har, es)) ==> |r.errors| == 1 && r.calls == [])
  {
    if apiAvailable && har.HarDelivered? && har.log.Some? && har.log.value.entries.Some? {
      var es := har.log.value.entries.value;
      assert Delivered(apiAvailable, har, es);
      ChunksFlatten(es, ChunkSize);
      ChunkLoopIsConvertAll(Chunks(es, ChunkSize), ids, now);
    }
  }

  // ---------------------------------------------------------------------
  // The progress variant
  // ---------------------------------------------------------------------

  const ProgressApiMissing := "DevTools API not available"
  const NoNetworkData := "No network data available"

  /**
   * The loop of the progress variant from entry `i` on: the calls pushed
   * and the `loaded` count of each `onProgress` report (one per converted
   * entry).
   */
  function ProgressFrom(es: seq<HarEntry>, i: nat, ids: IdSource, now: int): (r: (seq<CallRecord>, seq<nat>))
    requires i <= |es|
    ensures |r.0| == |r.1|
    ensures forall k | 0 <= k < |r.1| :: i < r.1[k] <= |es|
    ensures forall k | 0 <= k < |r.1| - 1 :: r.1[k] < r.1[k + 1]
    decreases |es| - i
  {
    if i == |es| then ([], [])
    else
      var c := Convert(es[i], ids(es[i]), now);
      var rest := ProgressFrom(es, i + 1, ids, now);
      if c.Some? then ([c.value] + rest.0, [i + 1] + rest.1) else rest
  }

  lemma {:induction false} ProgressFromConverts(es: seq<HarEntry>, i: nat, ids: IdSource, now: int)
    requires i <= |es|
    ensures ProgressFrom(es, i, ids, now).0 == ConvertAll(es[i..], ids, now)
    decreases |es| - i
  {
    if i < |es| {
      ProgressFromConverts(es, i + 1, ids, now);
      assert es[i..][1..] == es[i + 1..];
    }
  }

  /** The progress run: the result and every `onProgress(loaded, total)` report. */
  datatype ProgressRun = ProgressRun(result: LoadResult, reports: seq<(nat, nat)>)

  /**
   * `loadHistoricalNetworkDataWithProgress`; here a missing or empty entry
   * list is an error, and `getHAR` is not checked for `lastError`.
   */
  function LoadWithProgress(apiAvailable: bool, log: Option<HarLog>, ids: IdSource, now: int): (r: ProgressRun)
    ensures |r.result.errors| <= 1
    ensures |r.result.errors| == 1 ==> r.result.calls == [] && r.reports == []
    ensures r.result.errors == [] ==>
              && |r.reports| == |r.result.calls| + 1
              && r.reports[0] == (0, r.result.totalRequests)
              && (forall k | 0 <= k < |r.reports| :: r.reports[k].0 <= r.reports[k].1 == r.result.totalRequests)
              && (forall k | 0 <= k < |r.reports| - 1 :: r.reports[k].0 < r.reports[k + 1].0)
  {
    if !apiAvailable then ProgressRun(LoadResult([], 0, [ProgressApiMissing]), [])
    else if log.None? || log.value.entries.None? || |log.value.entries.value| == 0 then
      ProgressRun(LoadResult([], 0, [NoNetworkData]), [])
    else
      var es := log.value.entries.value;
      var run := ProgressFrom(es, 0, ids, now);
      var total := |es|;
      ProgressRun(LoadResult(run.0, total, []),
                  [(0, total)] + seq(|run.1|, k requires 0 <= k < |run.1| => (run.1[k], total)))
  }

  /** On a non-empty entry list the progress variant loads what the chunked loader loads. */
  lemma ProgressMatchesChunked(log: HarLog, ids: IdSource, now: int)
    requires log.entries.Some? && |log.entries.value| > 0
    ensures LoadWithProgress(true, Some(log), ids, now).result == LoadHistorical(true, HarDelivered(Some(log)), ids, now)
  {
    var es := log.entries.value;
    ProgressFromConverts(es, 0, ids, now);
    assert es[0..] == es;
    LoadHistoricalOutcome(true, HarDelivered(Some(log)), ids, now);
    assert Delivered(true, HarDelivered(Some(log)), es);
  }

  /** On an empty entry list the two loaders disagree: success with nothing against an error. */
  lemma EmptyLogDiffers(ids: IdSource, now: int)
    ensures LoadHistorical(true, HarDelivered(Some(HarLog(Some([])))), ids, now).errors == []
    ensures LoadWithProgress(true, Some(HarLog(Some([]))), ids, now).result.errors == [NoNetworkData]
  {
  }

  // ---------------------------------------------------------------------
  // On-demand response content
  // ---------------------------------------------------------------------

  /** `entries.find(e => e._requestId === requestId)`, as an index. */
  function FindEntry(es: seq<HarEntry>, requestId: string): (r: int)
    ensures -1 <= r < |es|
    ensures r >= 0 ==> es[r].requestId == Some(requestId)
    ensures forall i | 0 <= i < |es| && (r == -1 || i < r) :: es[i].requestId != Some(requestId)
  {
    if |es| == 0 then -1
    else if es[0].requestId == Some(requestId) then 0
    else
      var r := FindEntry(es[1..], requestId);
      assert forall i | 1 <= i < |es| :: es[i] == es[1..][i - 1];
      if r == -1 then -1 else r + 1
  }

  /** `loadHistoricalResponseContent(requestId)`. */
  function ResponseContent(apiAvailable: bool, har: HarOutcome, requestId: string): (r: Option<string>)
    ensures r.Some? ==> r.value != ""
    ensures !apiAvailable || har.HarFailed? || har.log.None? || har.log.value.entries.None? ==> r.None?
  {
    if !apiAvailable || har.HarFailed? || har.log.None? || har.log.value.entries.None? then None
    else
      var es := har.log.value.entries.value;
      var i := FindEntry(es, requestId);
      if i == -1 then None
      else
        var resp := es[i].response;
        if resp.Some? && Truthy(resp.value.contentText) then resp.value.contentText else None
  }

  /**
   * The content comes from the first entry with the requested id, and
   * only when that entry has a non-empty response text; a later entry
   * with the same id is never consulted.
   */
  lemma ResponseContentFirstMatch(es: seq<HarEntry>, requestId: string)
    ensures var r := ResponseContent(true, HarDelivered(Some(HarLog(Some(es)))), requestId);
            && (r.Some? ==> exists i | 0 <= i < |es| ::
                  && es[i].requestId == Some(requestId)
                  && (forall j | 0 <= j < i :: es[j].requestId != Some(requestId))
                  && es[i].response.Some? && es[i].response.value.contentText == r)
            && ((forall i | 0 <= i < |es| :: es[i].requestId != Some(requestId)) ==> r.None?)
            && (forall i | 0 <= i < |es| && es[i].requestId == Some(requestId)
                           && (forall j | 0 <= j < i :: es[j].requestId != Some(requestId)) ::
                  if es[i].response.Some? && Truthy(es[i].response.value.contentText)
                  then r == es[i].response.value.contentText
                  else r.None?)
  {
  }
}
