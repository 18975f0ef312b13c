/**
 * The two call lists, `NetworkCallList` (every call) and
 * `VirtualizedNetworkCallList` (a window of rows around the viewport).
 * Both share the status and method colours, the URL rendering with
 * clickable identifiers, and the row's "Copy cURL" text.
 */
module CallList {
  import opened Wrappers
  import opened Strings
  import opened Seqs
  import opened Calls
  import opened Uuid
  import CopyCommands

  // ---------------------------------------------------------------------
  // The virtual-scroll window
  // ---------------------------------------------------------------------

  /** `ITEM_HEIGHT`, in pixels. */
  const ItemHeight: nat := 120

  /** `BUFFER_SIZE`: rows rendered beyond each edge of the viewport. */
  const BufferSize: nat := 5

  /** `Math.ceil(a / b)` for non-negative `a`. */
  function CeilDiv(a: nat, b: nat): (r: nat)
    requires b > 0
    ensures r * b >= a
    ensures r > 0 ==> (r - 1) * b < a
  {
    if a == 0 then 0 else 1 + CeilDiv(if a >= b then a - b else 0, b)
  }

  /** `Math.max(0, Math.floor(scrollTop / ITEM_HEIGHT) - BUFFER_SIZE)`. */
  function StartIndex(scrollTop: nat): (r: nat)
    ensures r * ItemHeight <= scrollTop
  {
    var first := scrollTop / ItemHeight;
    if first >= BufferSize then first - BufferSize else 0
  }

  /** `Math.min(calls.length - 1, Math.ceil((scrollTop + height) / ITEM_HEIGHT) + BUFFER_SIZE)`. */
  function EndIndex(count: nat, scrollTop: nat, height: nat): (r: int)
    ensures r <= count - 1
    ensures r >= -1
  {
    var last := CeilDiv(scrollTop + height, ItemHeight) + BufferSize;
    if count - 1 <= last then count - 1 else last
  }

  /** `s.slice(a, b)` for non-negative bounds: clamped to the length, empty when `b <= a`. */
  function Slice<T>(s: seq<T>, a: nat, b: nat): (r: seq<T>)
    ensures |r| <= |s|
  {
    var lo := if a <= |s| then a else |s|;
    var hi := if b <= |s| then b else |s|;
    if hi <= lo then [] else s[lo..hi]
  }

  /** `calls.slice(startIndex, endIndex + 1)`. */
  function VisibleItems<T>(calls: seq<T>, scrollTop: nat, height: nat): (r: seq<T>)
    ensures |calls| == 0 ==> r == []
    ensures StartIndex(scrollTop) > EndIndex(|calls|, scrollTop, height) ==> r == []
    ensures StartIndex(scrollTop) <= EndIndex(|calls|, scrollTop, height) ==>
              r == calls[StartIndex(scrollTop)..EndIndex(|calls|, scrollTop, height) + 1]
  {
    var e := EndIndex(|calls|, scrollTop, height);
    Slice(calls, StartIndex(scrollTop), (e + 1) as nat)
  }

  /**
   * Every row that intersects the viewport `[scrollTop, scrollTop + height)`
   * lies between the start and end index, so it is rendered.
   */
  lemma RowsInViewAreRendered(count: nat, scrollTop: nat, height: nat, i: nat)
    requires i < count
    requires i * ItemHeight < scrollTop + height && scrollTop < (i + 1) * ItemHeight
    ensures StartIndex(scrollTop) <= i <= EndIndex(count, scrollTop, height)
  {
  }

  /** Row `k` of the window is call `startIndex + k` (`actualIndex`). */
  lemma VisibleRowIndex<T>(calls: seq<T>, scrollTop: nat, height: nat, k: int)
    requires 0 <= k < |VisibleItems(calls, scrollTop, height)|
    ensures StartIndex(scrollTop) + k < |calls|
    ensures VisibleItems(calls, scrollTop, height)[k] == calls[StartIndex(scrollTop) + k]
  {
  }

  /** `totalHeight` and `offsetY`: the list's full height and the window's offset. */
  function TotalHeight(count: nat): nat {
    count * ItemHeight
  }

  function OffsetY(scrollTop: nat): (r: nat)
    ensures r <= scrollTop
  {
    StartIndex(scrollTop) * ItemHeight
  }

  /** The rendered window lies inside the full-height spacer. */
  lemma WindowInsideSpacer<T>(calls: seq<T>, scrollTop: nat, height: nat)
    requires |VisibleItems(calls, scrollTop, height)| > 0
    ensures OffsetY(scrollTop) + |VisibleItems(calls, scrollTop, height)| * ItemHeight
            <= TotalHeight(|calls|)
  {
  }

  // ---------------------------------------------------------------------
  // Colours
  // ---------------------------------------------------------------------

  const Blue := "#61dafb"
  const Green := "#4caf50"
  const Orange := "#ff9800"
  const Red := "#f44336"
  const Grey := "#9e9e9e"

  /** `getStatusColor`. */
  function StatusColour(status: nat): string {
    if 200 <= status < 300 then Green
    else if 300 <= status < 400 then Orange
    else if status >= 400 then Red
    else Grey
  }

  /** The status colour classes partition the statuses; red is exactly the HTTP error class. */
  lemma StatusColourClasses(status: nat)
    ensures StatusColour(status) == Green <==> 200 <= status < 300
    ensures StatusColour(status) == Orange <==> 300 <= status < 400
    ensures StatusColour(status) == Red <==> IsHttpError(status)
    ensures StatusColour(status) == Grey <==> status < 200
  {
  }

  /** `getMethodColor`: by the upper-cased method. */
  function MethodColour(m: string): string {
    var u := Upper(m);
    if u == "GET" then Blue
    else if u == "POST" then Green
    else if u == "PUT" then Orange
    else if u == "DELETE" then Red
    else Grey
  }

  lemma UpperOfLower(s: string)
    ensures Upper(Lower(s)) == Upper(s)
    ensures Upper(Upper(s)) == Upper(s)
  {
  }

  /** The method colour ignores the method's letter case. */
  lemma MethodColourIgnoresCase(m: string)
    ensures MethodColour(Lower(m)) == MethodColour(m)
    ensures MethodColour(Upper(m)) == MethodColour(m)
  {
    UpperOfLower(m);
  }

  // ---------------------------------------------------------------------
  // The URL with clickable identifiers (`renderURLWithUUIDs`)
  // ---------------------------------------------------------------------

  datatype UrlPart = Plain(text: string) | Identifier(uuid: string)

  function PartText(p: UrlPart): string {
    match p
    case Plain(t) => t
    case Identifier(u) => u
  }

  function Joined(ps: seq<UrlPart>): string {
    if |ps| == 0 then "" else PartText(ps[0]) + Joined(ps[1..])
  }

  /** The identifiers shown, in order. */
  function Identifiers(ps: seq<UrlPart>): seq<string> {
    if |ps| == 0 then []
    else (if ps[0].Identifier? then [ps[0].uuid] else []) + Identifiers(ps[1..])
  }

  /** Plain parts are never empty and never adjacent: text and identifiers alternate. */
  predicate Alternating(ps: seq<UrlPart>) {
    && (forall k | 0 <= k < |ps| :: ps[k].Plain? ==> ps[k].text != "")
    && (forall k | 0 <= k < |ps| - 1 :: !(ps[k].Plain? && ps[k + 1].Plain?))
  }

  /** The `forEach` over the matches, from `lastIndex == last`. */
  function UrlWalk(url: string, ms: seq<UuidMatch>, last: nat): (r: seq<UrlPart>)
    requires last <= |url|
    requires forall k | 0 <= k < |ms| :: WellFormedMatch(url, ms[k])
    requires NonOverlapping(ms)
    requires |ms| > 0 ==> last <= ms[0].position
    decreases |ms|
  {
    if |ms| == 0 then (if last < |url| then [Plain(url[last..])] else [])
    else
      var m := ms[0];
      assert WellFormedMatch(url, m);
      MatchesTail(url, ms);
      (if m.position > last then [Plain(url[last..m.position])] else [])
      + [Identifier(m.uuid)]
      + UrlWalk(url, ms[1..], m.position + UuidLength)
  }

  /** The matches after the first are well formed, do not overlap, and start after it. */
  lemma MatchesTail(url: string, ms: seq<UuidMatch>)
    requires |ms| > 0
    requires forall k | 0 <= k < |ms| :: WellFormedMatch(url, ms[k])
    requires NonOverlapping(ms)
    ensures var rest := ms[1..];
            && (forall k | 0 <= k < |rest| :: WellFormedMatch(url, rest[k]))
            && NonOverlapping(rest)
            && (|rest| > 0 ==> ms[0].position + UuidLength <= rest[0].position)
  {
    var rest := ms[1..];
    forall k | 0 <= k < |rest| - 1 ensures rest[k].position + UuidLength <= rest[k + 1].position {
      assert rest[k] == ms[k + 1] && rest[k + 1] == ms[k + 2];
    }
  }

  /** `renderURLWithUUIDs(url)`: the whole URL as one part when it holds no identifier. */
  function UrlParts(url: string): (r: seq<UrlPart>)
    ensures |Detect(url)| == 0 ==> r == [Plain(url)]
  {
    var ms := Detect(url);
    if |ms| == 0 then [Plain(url)] else UrlWalk(url, ms, 0)
  }

  lemma {:induction false} JoinedAppend(a: seq<UrlPart>, b: seq<UrlPart>)
    ensures Joined(a + b) == Joined(a) + Joined(b)
  {
    if |a| > 0 {
      assert (a + b)[1..] == a[1..] + b;
      JoinedAppend(a[1..], b);
      AppendAssoc(PartText(a[0]), Joined(a[1..]), Joined(b));
    } else {
      assert a + b == b;
    }
  }

  lemma {:induction false} IdentifiersAppend(a: seq<UrlPart>, b: seq<UrlPart>)
    ensures Identifiers(a + b) == Identifiers(a) + Identifiers(b)
  {
    if |a| > 0 {
      assert (a + b)[1..] == a[1..] + b;
      IdentifiersAppend(a[1..], b);
      var h := if a[0].Identifier? then [a[0].uuid] else [];
      AppendAssoc(h, Identifiers(a[1..]), Identifiers(b));
    } else {
      assert a + b == b;
    }
  }

  /** The parts of one step: the gap (if any), the identifier, the rest. */
  lemma UrlWalkStep(url: string, ms: seq<UuidMatch>, last: nat)
    requires last <= |url|
    requires forall k | 0 <= k < |ms| :: WellFormedMatch(url, ms[k])
    requires NonOverlapping(ms)
    requires |ms| > 0 && last <= ms[0].position
    ensures ms[0].position + UuidLength <= |url|
    ensures var p := ms[0].position;
            var g := if p > last then [Plain(url[last..p])] else [];
            && Joined(g) == url[last..p]
            && Identifiers(g) == []
            && |g| <= 1 && Alternating(g)
            && ms[0].uuid == url[p..p + UuidLength]
            && UrlWalk(url, ms, last) == (g + [Identifier(ms[0].uuid)]) + UrlWalk(url, ms[1..], p + UuidLength)
  {
    var p := ms[0].position;
    assert WellFormedMatch(url, ms[0]);
    if p > last {
      assert url[last..p] + "" == url[last..p];
      assert Identifiers([Plain(url[last..p])]) == [] + [];
    }
  }

  lemma JoinedStep(g: seq<UrlPart>, u: string, rest: seq<UrlPart>)
    ensures Joined((g + [Identifier(u)]) + rest) == Joined(g) + (u + Joined(rest))
  {
    JoinedAppend(g + [Identifier(u)], rest);
    JoinedAppend(g, [Identifier(u)]);
    assert Joined([Identifier(u)]) == u + "";
    AppendAssoc(Joined(g), u, Joined(rest));
  }

  lemma IdentifiersStep(g: seq<UrlPart>, u: string, rest: seq<UrlPart>)
    requires Identifiers(g) == []
    ensures Identifiers((g + [Identifier(u)]) + rest) == [u] + Identifiers(rest)
  {
    IdentifiersAppend(g + [Identifier(u)], rest);
    IdentifiersAppend(g, [Identifier(u)]);
    assert Identifiers([Identifier(u)]) == [u] + [];
  }

  lemma SliceSplit3(s: string, a: nat, b: nat, c: nat)
    requires a <= b <= c <= |s|
    ensures s[a..b] + (s[b..c] + s[c..]) == s[a..]
  {
  }

  /** The identifier texts of a match list. */
  function Uuids(ms: seq<UuidMatch>): (r: seq<string>)
    ensures |r| == |ms|
    ensures forall k | 0 <= k < |ms| :: r[k] == ms[k].uuid
  {
    seq(|ms|, k requires 0 <= k < |ms| => ms[k].uuid)
  }

  lemma UuidsCons(ms: seq<UuidMatch>)
    requires |ms| > 0
    ensures Uuids(ms) == [ms[0].uuid] + Uuids(ms[1..])
  {
  }

  /** The parts concatenate back to the URL from `last` on. */
  lemma {:induction false} UrlWalkJoins(url: string, ms: seq<UuidMatch>, last: nat)
    requires last <= |url|
    requires forall k | 0 <= k < |ms| :: WellFormedMatch(url, ms[k])
    requires NonOverlapping(ms)
    requires |ms| > 0 ==> last <= ms[0].position
    ensures Joined(UrlWalk(url, ms, last)) == url[last..]
    decreases |ms|
  {
    if |ms| == 0 {
      if last < |url| {
        assert url[last..] + "" == url[last..];
      }
    } else {
      var p := ms[0].position;
      var g := if p > last then [Plain(url[last..p])] else [];
      UrlWalkStep(url, ms, last);
      MatchesTail(url, ms);
      UrlWalkJoins(url, ms[1..], p + UuidLength);
      JoinedStep(g, ms[0].uuid, UrlWalk(url, ms[1..], p + UuidLength));
      SliceSplit3(url, last, p, p + UuidLength);
    }
  }

  /** The identifier parts are the matches' texts, in order. */
  lemma {:induction false} UrlWalkIdentifiers(url: string, ms: seq<UuidMatch>, last: nat)
    requires last <= |url|
    requires forall k | 0 <= k < |ms| :: WellFormedMatch(url, ms[k])
    requires NonOverlapping(ms)
    requires |ms| > 0 ==> last <= ms[0].position
    ensures Identifiers(UrlWalk(url, ms, last)) == Uuids(ms)
    decreases |ms|
  {
    if |ms| > 0 {
      var p := ms[0].position;
      var g := if p > last then [Plain(url[last..p])] else [];
      UrlWalkStep(url, ms, last);
      MatchesTail(url, ms);
      UrlWalkIdentifiers(url, ms[1..], p + UuidLength);
      IdentifiersStep(g, ms[0].uuid, UrlWalk(url, ms[1..], p + UuidLength));
      UuidsCons(ms);
    } else {
      if last < |url| {
        assert Identifiers([Plain(url[last..])]) == [] + [];
      }
    }
  }

  lemma AlternatingAppend(a: seq<UrlPart>, b: seq<UrlPart>)
    requires Alternating(a) && Alternating(b)
    requires |a| > 0 && |b| > 0 ==> !(a[|a| - 1].Plain? && b[0].Plain?)
    ensures Alternating(a + b)
  {
    var ab := a + b;
    forall k | 0 <= k < |ab| - 1 ensures !(ab[k].Plain? && ab[k + 1].Plain?) {
      if k + 1 < |a| {
        assert ab[k] == a[k] && ab[k + 1] == a[k + 1];
      } else if k >= |a| {
        assert ab[k] == b[k - |a|] && ab[k + 1] == b[k - |a| + 1];
      }
    }
  }

  lemma AlternatingStep(g: seq<UrlPart>, u: string, rest: seq<UrlPart>)
    requires |g| <= 1 && Alternating(g) && Alternating(rest)
    ensures Alternating((g + [Identifier(u)]) + rest)
  {
    AlternatingAppend(g, [Identifier(u)]);
    AlternatingAppend(g + [Identifier(u)], rest);
  }

  /** Text and identifiers alternate, with no empty text part. */
  lemma {:induction false} UrlWalkAlternates(url: string, ms: seq<UuidMatch>, last: nat)
    requires last <= |url|
    requires forall k | 0 <= k < |ms| :: WellFormedMatch(url, ms[k])
    requires NonOverlapping(ms)
    requires |ms| > 0 ==> last <= ms[0].position
    ensures Alternating(UrlWalk(url, ms, last))
    decreases |ms|
  {
    if |ms| > 0 {
      var p := ms[0].position;
      var g := if p > last then [Plain(url[last..p])] else [];
      UrlWalkStep(url, ms, last);
      MatchesTail(url, ms);
      UrlWalkAlternates(url, ms[1..], p + UuidLength);
      AlternatingStep(g, ms[0].uuid, UrlWalk(url, ms[1..], p + UuidLength));
    }
  }

  /**
   * The rendered URL reads back as the URL, its identifier parts are
   * exactly `extractUUIDsFromURL(url)`, and (for a non-empty URL) text and
   * identifiers alternate.
   */
  lemma UrlPartsFaithful(url: string)
    ensures Joined(UrlParts(url)) == url
    ensures Identifiers(UrlParts(url)) == ExtractFromUrl(url)
    ensures url != "" ==> Alternating(UrlParts(url))
  {
    var ms := Detect(url);
    if |ms| == 0 {
      assert Joined([Plain(url)]) == url + "";
      assert Identifiers([Plain(url)]) == [] + [];
    } else {
      UrlWalkJoins(url, ms, 0);
      UrlWalkIdentifiers(url, ms, 0);
      assert Uuids(ms) == ExtractFromUrl(url);
      UrlWalkAlternates(url, ms, 0);
    }
  }

  // ---------------------------------------------------------------------
  // Rows
  // ---------------------------------------------------------------------

  /** What one row shows. */
  datatype Row = Row(
    id: string,
    httpMethod: string,
    methodColour: string,
    status: nat,
    statusColour: string,
    url: seq<UrlPart>,
    selected: bool)

  function RowFor(call: CallRecord, selectedId: Option<string>): Row {
    Row(call.id, call.httpMethod, MethodColour(call.httpMethod), call.status, StatusColour(call.status),
        UrlParts(call.url), selectedId == Some(call.id))
  }

  datatype ListView = NoCallsYet | Rows(rows: seq<Row>)

  function RowsFor(calls: seq<CallRecord>, selectedId: Option<string>): (r: seq<Row>)
    ensures |r| == |calls|
    ensures forall k | 0 <= k < |r| :: r[k] == RowFor(calls[k], selectedId)
  {
    seq(|calls|, k requires 0 <= k < |calls| => RowFor(calls[k], selectedId))
  }

  /** `NetworkCallList`: one row per call, in order, or the empty state. */
  function FullList(calls: seq<CallRecord>, selectedId: Option<string>): (r: ListView)
    ensures r.NoCallsYet? <==> |calls| == 0
    ensures r.Rows? ==> |r.rows| == |calls|
                        && forall k | 0 <= k < |calls| ::
                             r.rows[k].id == calls[k].id && Joined(r.rows[k].url) == calls[k].url
  {
    if |calls| == 0 then NoCallsYet
    else
      forall k | 0 <= k < |calls| ensures Joined(UrlParts(calls[k].url)) == calls[k].url {
        UrlPartsFaithful(calls[k].url);
      }
      Rows(RowsFor(calls, selectedId))
  }

  /** `VirtualizedNetworkCallList`: the rows of the window and the spacer geometry. */
  datatype VirtualView = VirtualView(list: ListView, totalHeight: nat, offsetY: nat)

  function VirtualList(calls: seq<CallRecord>, scrollTop: nat, height: nat, selectedId: Option<string>)
    : (r: VirtualView)
    ensures r.list.NoCallsYet? <==> |calls| == 0
    ensures r.totalHeight == |calls| * ItemHeight
  {
    if |calls| == 0 then VirtualView(NoCallsYet, 0, OffsetY(scrollTop))
    else
      VirtualView(Rows(RowsFor(VisibleItems(calls, scrollTop, height), selectedId)),
                  TotalHeight(|calls|), OffsetY(scrollTop))
  }

  /**
   * The virtual list shows a contiguous piece of the full list: the rows
   * from the start index to the end index, or nothing when the window is
   * past the end.
   */
  lemma VirtualRowsAreWindow(calls: seq<CallRecord>, scrollTop: nat, height: nat, selectedId: Option<string>)
    requires |calls| > 0
    ensures var s, e := StartIndex(scrollTop), EndIndex(|calls|, scrollTop, height);
            var full := FullList(calls, selectedId).rows;
            var shown := VirtualList(calls, scrollTop, height, selectedId).list.rows;
            && (s <= e ==> shown == full[s..e + 1])
            && (s > e ==> shown == [])
  {
  }

  // ---------------------------------------------------------------------
  // Copy cURL of a row
  // ---------------------------------------------------------------------

  /** The body flag: written only when the recorded method sends a body. */
  function ListCurlBody(call: CallRecord): string {
    if Truthy(call.requestBody) && CopyCommands.BodyMethod(call.httpMethod) then
      " -d '" + CopyCommands.ShellEscape(call.requestBody.value) + "'"
    else ""
  }

  /** `copyAsCurl(call)` of both lists, built up as the source appends to `curl`. */
  function ListCurl(call: CallRecord): string {
    var start := "curl -X " + Or(call.httpMethod, "GET") + " \"" + call.url + "\"";
    start + CopyCommands.HeaderLines(call.requestHeaders, CopyCommands.CurlFlag) + ListCurlBody(call)
  }

  /**
   * The row's "Copy cURL" writes the same text as the copy menu's bash
   * cURL, although it tests the raw method for a body where the menu tests
   * `method || "GET"`.
   */
  lemma ListCurlIsMenuCurl(call: CallRecord)
    ensures ListCurl(call) == CopyCommands.GenerateCurl(call, false)
  {
    assert CopyCommands.BodyMethod(CopyCommands.RequestMethod(call)) == CopyCommands.BodyMethod(call.httpMethod);
    assert ListCurlBody(call) == CopyCommands.CurlBody(call);
    var line := CopyCommands.CurlRequestLine(call);
    var flags := CopyCommands.HeaderLines(call.requestHeaders, CopyCommands.CurlFlag);
    var body := CopyCommands.CurlBody(call);
    assert "curl -X " + Or(call.httpMethod, "GET") + " \"" + call.url + "\"" == "curl" + line;
    AppendAssoc("curl", line, flags + body);
    AppendAssoc(line, flags, body);
    AppendAssoc("curl" + line, flags, body);
  }

  /** The row's cURL ends with a body word that the shell reads back as the body. */
  lemma ListCurlBodyReadsBack(call: CallRecord)
    requires Truthy(call.requestBody) && CopyCommands.BodyMethod(call.httpMethod)
    ensures var word := CopyCommands.SingleQuoted(call.requestBody.value);
            EndsWith(ListCurl(call), " -d " + word)
            && CopyCommands.Unquote(word, CopyCommands.Bare) == Some(call.requestBody.value)
  {
    ListCurlIsMenuCurl(call);
    CopyCommands.CurlWritesPairsAndBody(call, false);
  }
}
