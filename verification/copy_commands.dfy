/**
 * The copy menu: cURL (bash and cmd), PowerShell and fetch command text,
 * header text, the "all calls" variants, the format table with its menu
 * labels, and the single-quote escape of the cURL body together with the
 * POSIX shell quote removal it is undone by.
 */
module CopyCommands {
  import opened Wrappers
  import opened Strings
  import opened Seqs
  import opened Calls

  // ---------------------------------------------------------------------
  // Header pairs
  // ---------------------------------------------------------------------

  /** `header.name || header.key`. */
  function ItemName(h: HeaderItem): string {
    Or(h.name, h.key)
  }

  /**
   * The text of an object-map value: a string as itself, an object as
   * `.value || .name || JSON.stringify(value)`.
   */
  function ValueText(v: HeaderValue): string {
    match v
    case Text(s) => s
    case Nested(value, name, json) => Or(value, Or(name, json))
  }

  /** Truthiness of a map value: a non-empty string, or any object. */
  predicate ValueTruthy(v: HeaderValue) {
    v.Text? ==> v.s != ""
  }

  /** The array-form test of the cURL and fetch loops: `name && value`. */
  predicate ItemKept(h: HeaderItem) {
    ItemName(h) != "" && h.value != ""
  }

  /** The object-form test of every generator: `key && value`. */
  predicate EntryKept(e: (string, HeaderValue)) {
    e.0 != "" && ValueTruthy(e.1)
  }

  const ItemKeptTest: HeaderItem -> bool := (h: HeaderItem) => ItemKept(h)
  const NamedTest: HeaderItem -> bool := (h: HeaderItem) => ItemName(h) != ""
  const EntryKeptTest: ((string, HeaderValue)) -> bool := (e: (string, HeaderValue)) => EntryKept(e)

  function ItemPairs(items: seq<HeaderItem>): (r: seq<(string, string)>)
    ensures |r| == |items|
    ensures forall k | 0 <= k < |r| :: r[k] == (ItemName(items[k]), items[k].value)
  {
    seq(|items|, k requires 0 <= k < |items| => (ItemName(items[k]), items[k].value))
  }

  function EntryPairs(entries: seq<(string, HeaderValue)>): (r: seq<(string, string)>)
    ensures |r| == |entries|
    ensures forall k | 0 <= k < |r| :: r[k] == (entries[k].0, ValueText(entries[k].1))
  {
    seq(|entries|, k requires 0 <= k < |entries| => (entries[k].0, ValueText(entries[k].1)))
  }

  /**
   * Reference definition: the name/value pairs the cURL and fetch
   * generators write, in order — the kept items or entries of
   * `requestHeaders || {}`.
   */
  function EmittedPairs(h: Headers): (r: seq<(string, string)>)
    ensures forall k | 0 <= k < |r| :: r[k].0 != ""
  {
    match HeadersOrEmpty(h)
    case ArrayForm(items) =>
      var kept := Filter(items, ItemKeptTest);
      assert forall k | 0 <= k < |kept| :: kept[k] in kept;
      ItemPairs(kept)
    case ObjectForm(entries) =>
      var kept := Filter(entries, EntryKeptTest);
      assert forall k | 0 <= k < |kept| :: kept[k] in kept;
      EntryPairs(kept)
    case NoHeaders => []
  }

  /** One text per pair. */
  function Render(ps: seq<(string, string)>, line: (string, string) -> string): (r: seq<string>)
    ensures |r| == |ps|
    ensures forall k | 0 <= k < |r| :: r[k] == line(ps[k].0, ps[k].1)
  {
    seq(|ps|, k requires 0 <= k < |ps| => line(ps[k].0, ps[k].1))
  }

  function Concat(parts: seq<string>): string {
    if |parts| == 0 then "" else parts[0] + Concat(parts[1..])
  }

  /** The `forEach` of the array branch: test each item, write its line. */
  function ItemLines(items: seq<HeaderItem>, line: (string, string) -> string): string {
    if |items| == 0 then ""
    else (if ItemKept(items[0]) then line(ItemName(items[0]), items[0].value) else "")
         + ItemLines(items[1..], line)
  }

  /** The `Object.entries(...).forEach` of the object branch. */
  function EntryLines(entries: seq<(string, HeaderValue)>, line: (string, string) -> string): string {
    if |entries| == 0 then ""
    else (if EntryKept(entries[0]) then line(entries[0].0, ValueText(entries[0].1)) else "")
         + EntryLines(entries[1..], line)
  }

  /** The header loop of the cURL generators. */
  function HeaderLines(h: Headers, line: (string, string) -> string): string {
    match HeadersOrEmpty(h)
    case ArrayForm(items) => ItemLines(items, line)
    case ObjectForm(entries) => EntryLines(entries, line)
    case NoHeaders => ""
  }

  lemma {:induction false} ItemLinesArePairs(items: seq<HeaderItem>, line: (string, string) -> string)
    ensures ItemLines(items, line) == Concat(Render(ItemPairs(Filter(items, ItemKeptTest)), line))
  {
    if |items| > 0 {
      ItemLinesArePairs(items[1..], line);
      var rest := Render(ItemPairs(Filter(items[1..], ItemKeptTest)), line);
      var all := Render(ItemPairs(Filter(items, ItemKeptTest)), line);
      if ItemKept(items[0]) {
        assert Filter(items, ItemKeptTest) == [items[0]] + Filter(items[1..], ItemKeptTest);
        assert all[0] == line(ItemName(items[0]), items[0].value);
        assert all[1..] == rest;
      } else {
        assert all == rest;
        assert ItemLines(items, line) == "" + ItemLines(items[1..], line);
      }
    }
  }

  lemma {:induction false} EntryLinesArePairs(entries: seq<(string, HeaderValue)>, line: (string, string) -> string)
    ensures EntryLines(entries, line) == Concat(Render(EntryPairs(Filter(entries, EntryKeptTest)), line))
  {
    if |entries| > 0 {
      EntryLinesArePairs(entries[1..], line);
      var rest := Render(EntryPairs(Filter(entries[1..], EntryKeptTest)), line);
      var all := Render(EntryPairs(Filter(entries, EntryKeptTest)), line);
      if EntryKept(entries[0]) {
        assert Filter(entries, EntryKeptTest) == [entries[0]] + Filter(entries[1..], EntryKeptTest);
        assert all[0] == line(entries[0].0, ValueText(entries[0].1));
        assert all[1..] == rest;
      } else {
        assert all == rest;
        assert EntryLines(entries, line) == "" + EntryLines(entries[1..], line);
      }
    }
  }

  /**
   * The test-and-write loop writes exactly one line per emitted pair, in
   * header order: filtering first and rendering after gives the same text.
   */
  lemma HeaderLinesArePairs(h: Headers, line: (string, string) -> string)
    ensures HeaderLines(h, line) == Concat(Render(EmittedPairs(h), line))
  {
    match HeadersOrEmpty(h)
    case ArrayForm(items) => ItemLinesArePairs(items, line);
    case ObjectForm(entries) => EntryLinesArePairs(entries, line);
  }

  /** Every emitted pair comes from a header with a name and a truthy value. */
  lemma EmittedPairsAreTruthy(h: Headers, k: int)
    requires 0 <= k < |EmittedPairs(h)|
    ensures h.ArrayForm? ==> exists i | 0 <= i < |h.items| ::
              ItemKept(h.items[i]) && EmittedPairs(h)[k] == (ItemName(h.items[i]), h.items[i].value)
    ensures h.ObjectForm? ==> exists i | 0 <= i < |h.entries| ::
              EntryKept(h.entries[i]) && EmittedPairs(h)[k] == (h.entries[i].0, ValueText(h.entries[i].1))
  {
    match h
    case ArrayForm(items) =>
      var kept := Filter(items, ItemKeptTest);
      assert kept[k] in kept;
      var i :| 0 <= i < |items| && items[i] == kept[k];
    case ObjectForm(entries) =>
      var kept := Filter(entries, EntryKeptTest);
      assert kept[k] in kept;
      var i :| 0 <= i < |entries| && entries[i] == kept[k];
    case NoHeaders =>
  }

  // ---------------------------------------------------------------------
  // Shell quoting of the cURL body
  // ---------------------------------------------------------------------

  /** `body.replace(/'/g, "'\"'\"'")`: close the quote, write `'` in double quotes, reopen. */
  function ShellEscape(b: string): string {
    ReplaceAllChar(b, '\'', "'\"'\"'")
  }

  /** The body as one single-quoted shell word. */
  function SingleQuoted(b: string): string {
    "'" + ShellEscape(b) + "'"
  }

  /** Where quote removal stands: outside quotes, inside `'…'`, inside `"…"`. */
  datatype QuoteMode = Bare | Single | Double

  function Cons(c: char, o: Option<string>): Option<string> {
    if o.Some? then Some([c] + o.value) else None
  }

  function Prepend(p: string, o: Option<string>): Option<string> {
    if o.Some? then Some(p + o.value) else None
  }

  /** The characters a backslash escapes inside double quotes. */
  predicate DoubleEscapable(c: char) {
    c == '$' || c == '`' || c == '"' || c == '\\' || c == '\n'
  }

  /**
   * Quote removal for one shell word (section 2.2 of the POSIX Shell
   * Command Language): inside single quotes every character is literal
   * up to the closing quote; outside quotes a backslash keeps the next
   * character; inside double quotes a backslash keeps only `$`, `` ` ``,
   * `"`, `\` and newline. `None` for an unterminated quote or a trailing
   * backslash. Expansions are not performed.
   */
  function Unquote(w: string, mode: QuoteMode): (r: Option<string>)
  {
    if |w| == 0 then (if mode == Bare then Some("") else None)
    else match mode
      case Bare =>
        if w[0] == '\'' then Unquote(w[1..], Single)
        else if w[0] == '"' then Unquote(w[1..], Double)
        else if w[0] == '\\' then (if |w| < 2 then None else Cons(w[1], Unquote(w[2..], Bare)))
        else Cons(w[0], Unquote(w[1..], Bare))
      case Single =>
        if w[0] == '\'' then Unquote(w[1..], Bare)
        else Cons(w[0], Unquote(w[1..], Single))
      case Double =>
        if w[0] == '"' then Unquote(w[1..], Bare)
        else if w[0] == '\\' && |w| >= 2 && DoubleEscapable(w[1]) then Cons(w[1], Unquote(w[2..], Double))
        else Cons(w[0], Unquote(w[1..], Double))
  }

  lemma EscapeHead(b: string)
    requires |b| > 0
    ensures ShellEscape(b) == (if b[0] == '\'' then "'\"'\"'" else [b[0]]) + ShellEscape(b[1..])
  {
  }

  /** Inside single quotes, the escape of one quote reads back as that quote. */
  lemma UnquoteEscapedQuote(tail: string)
    ensures Unquote("'\"'\"'" + tail, Single) == Cons('\'', Unquote(tail, Single))
  {
    var w := "'\"'\"'" + tail;
    assert w[1..] == "\"'\"'" + tail;
    assert w[2..] == "'\"'" + tail;
    assert w[3..] == "\"'" + tail;
    assert w[4..] == "'" + tail;
    assert w[5..] == tail;
    assert Unquote(w, Single) == Unquote(w[1..], Bare);
    assert Unquote(w[1..], Bare) == Unquote(w[2..], Double);
    assert Unquote(w[2..], Double) == Cons('\'', Unquote(w[3..], Double));
    assert Unquote(w[3..], Double) == Unquote(w[4..], Bare);
  }

  lemma UnquotePlain(c: char, tail: string)
    requires c != '\''
    ensures Unquote([c] + tail, Single) == Cons(c, Unquote(tail, Single))
  {
    assert ([c] + tail)[1..] == tail;
  }

  lemma ConsPrepend(b: string, o: Option<string>)
    requires |b| > 0
    ensures Cons(b[0], Prepend(b[1..], o)) == Prepend(b, o)
  {
    if o.Some? {
      assert b == [b[0]] + b[1..];
      AppendAssoc([b[0]], b[1..], o.value);
    }
  }

  /** One step of `UnquoteEscaped`: the first character of `b` comes back first. */
  lemma UnquoteEscapedStep(b: string, rest: string)
    requires |b| > 0
    requires Unquote(ShellEscape(b[1..]) + "'" + rest, Single) == Prepend(b[1..], Unquote(rest, Bare))
    ensures Unquote(ShellEscape(b) + "'" + rest, Single) == Prepend(b, Unquote(rest, Bare))
  {
    var tail := ShellEscape(b[1..]) + "'" + rest;
    var head := if b[0] == '\'' then "'\"'\"'" else [b[0]];
    assert ShellEscape(b) + "'" + rest == head + tail by {
      EscapeHead(b);
      AppendAssoc(head, ShellEscape(b[1..]), "'");
      AppendAssoc(head, ShellEscape(b[1..]) + "'", rest);
    }
    assert Unquote(head + tail, Single) == Cons(b[0], Unquote(tail, Single)) by {
      if b[0] == '\'' {
        UnquoteEscapedQuote(tail);
      } else {
        UnquotePlain(b[0], tail);
      }
    }
    ConsPrepend(b, Unquote(rest, Bare));
  }

  lemma {:induction false} UnquoteEscaped(b: string, rest: string)
    ensures Unquote(ShellEscape(b) + "'" + rest, Single) == Prepend(b, Unquote(rest, Bare))
  {
    if |b| == 0 {
      var w := ShellEscape(b) + "'" + rest;
      assert w == "'" + rest;
      assert w[1..] == rest;
      var after := Unquote(rest, Bare);
      if after.Some? {
        assert b + after.value == after.value;
      }
    } else {
      UnquoteEscaped(b[1..], rest);
      UnquoteEscapedStep(b, rest);
    }
  }

  /** Round trip: the shell reads the quoted word back as exactly the body. */
  lemma ShellRoundTrip(b: string)
    ensures Unquote(SingleQuoted(b), Bare) == Some(b)
  {
    var w := SingleQuoted(b);
    assert w[1..] == ShellEscape(b) + "'" + "";
    assert Unquote(w, Bare) == Unquote(w[1..], Single);
    UnquoteEscaped(b, "");
    assert b + "" == b;
  }

  // ---------------------------------------------------------------------
  // cURL
  // ---------------------------------------------------------------------

  /** `call.method || "GET"`. */
  function RequestMethod(call: CallRecord): string {
    Or(call.httpMethod, "GET")
  }

  /** `["POST", "PUT", "PATCH"].includes(m)`. */
  predicate BodyMethod(m: string) {
    m == "POST" || m == "PUT" || m == "PATCH"
  }

  /** A body is written only when present, non-empty and the method sends one. */
  predicate SendsBody(call: CallRecord) {
    Truthy(call.requestBody) && BodyMethod(RequestMethod(call))
  }

  function CurlPrefix(isWindows: bool): string {
    if isWindows then "curl.exe" else "curl"
  }

  /** ` -H "name: value"`. */
  function CurlFlag(name: string, value: string): string {
    " -H \"" + name + ": " + value + "\""
  }

  /** ` -X <method> "<url>"`. */
  function CurlRequestLine(call: CallRecord): string {
    " -X " + RequestMethod(call) + " \"" + call.url + "\""
  }

  /** ` -d '<escaped body>'` when the call sends a body. */
  function CurlBody(call: CallRecord): string {
    if SendsBody(call) then " -d " + SingleQuoted(call.requestBody.value) else ""
  }

  /** Everything after the program name. */
  function CurlArguments(call: CallRecord): string {
    CurlRequestLine(call) + (HeaderLines(call.requestHeaders, CurlFlag) + CurlBody(call))
  }

  /** `generateCurlCommand(call, isWindows)`. */
  function GenerateCurl(call: CallRecord, isWindows: bool): (r: string)
    ensures StartsWith(r, CurlPrefix(isWindows) + CurlRequestLine(call))
    ensures SendsBody(call) ==> EndsWith(r, " -d " + SingleQuoted(call.requestBody.value))
  {
    var head := CurlPrefix(isWindows) + CurlRequestLine(call);
    var tail := HeaderLines(call.requestHeaders, CurlFlag) + CurlBody(call);
    assert CurlPrefix(isWindows) + CurlArguments(call) == head + tail;
    StartsWithAppend(head, tail);
    EndsWithAppend(head + HeaderLines(call.requestHeaders, CurlFlag), CurlBody(call));
    CurlPrefix(isWindows) + CurlArguments(call)
  }

  /** The cmd variant differs from the bash one only in the program name. */
  lemma CurlCmdOnlyRenames(call: CallRecord)
    ensures GenerateCurl(call, true) == "curl.exe" + GenerateCurl(call, false)[4..]
  {
    var rest := CurlArguments(call);
    assert ("curl" + rest)[4..] == rest;
  }

  /**
   * The headers written are exactly the emitted pairs, in order, and the
   * last shell word of a command with a body reads back as the body.
   */
  lemma CurlWritesPairsAndBody(call: CallRecord, isWindows: bool)
    ensures GenerateCurl(call, isWindows)
            == CurlPrefix(isWindows) + CurlRequestLine(call)
               + Concat(Render(EmittedPairs(call.requestHeaders), CurlFlag)) + CurlBody(call)
    ensures SendsBody(call) ==>
              var r := GenerateCurl(call, isWindows);
              var word := SingleQuoted(call.requestBody.value);
              EndsWith(r, " -d " + word) && Unquote(word, Bare) == Some(call.requestBody.value)
  {
    HeaderLinesArePairs(call.requestHeaders, CurlFlag);
    var prefix, line := CurlPrefix(isWindows), CurlRequestLine(call);
    var flags, body := HeaderLines(call.requestHeaders, CurlFlag), CurlBody(call);
    AppendAssoc(prefix, line, flags + body);
    AppendAssoc(prefix + line, flags, body);
    if SendsBody(call) {
      ShellRoundTrip(call.requestBody.value);
    }
  }

  // ---------------------------------------------------------------------
  // PowerShell
  // ---------------------------------------------------------------------

  /** `headers || {}` is a non-empty array or a map with at least one key. */
  predicate HeaderBlockShown(h: Headers) {
    match HeadersOrEmpty(h)
    case ArrayForm(items) => |items| > 0
    case ObjectForm(entries) => |entries| > 0
    case NoHeaders => false
  }

  /** `"name" = "value"`. */
  function HashEntry(name: string, value: string): string {
    "\"" + name + "\" = \"" + value + "\""
  }

  /**
   * The `-Headers @{…}` block: present for a non-empty array or map. The
   * array branch keeps every item with a name, whatever its value.
   */
  function PowerShellHeaders(h: Headers): (r: string)
    ensures r == "" <==> match HeadersOrEmpty(h)
                         case ArrayForm(items) => |items| == 0
                         case ObjectForm(entries) => |entries| == 0
                         case NoHeaders => true
  {
    match HeadersOrEmpty(h)
    case ArrayForm(items) =>
      if |items| > 0 then " -Headers @{" + Join(Render(ItemPairs(Filter(items, NamedTest)), HashEntry), "; ") + "}"
      else ""
    case ObjectForm(entries) =>
      if |entries| > 0 then " -Headers @{" + Join(Render(EntryPairs(Filter(entries, EntryKeptTest)), HashEntry), "; ") + "}"
      else ""
    case NoHeaders => ""
  }

  /** ` -Body '<body>'` when the call sends a body. */
  function PowerShellBody(call: CallRecord): string {
    if SendsBody(call) then " -Body '" + call.requestBody.value + "'" else ""
  }

  /** `generatePowerShellCommand(call)`; the body is quoted but not escaped. */
  function GeneratePowerShell(call: CallRecord): (r: string)
    ensures StartsWith(r, "Invoke-RestMethod -Uri \"" + call.url + "\" -Method " + RequestMethod(call))
    ensures SendsBody(call) ==> EndsWith(r, " -Body '" + call.requestBody.value + "'")
  {
    var head := "Invoke-RestMethod -Uri \"" + call.url + "\" -Method " + RequestMethod(call);
    var hash := PowerShellHeaders(call.requestHeaders);
    var body := PowerShellBody(call);
    StartsWithAppend(head, hash + body);
    EndsWithAppend(head + hash, body);
    AppendAssoc(head, hash, body);
    head + hash + body
  }

  /**
   * The pairs the PowerShell hash lists: every array item with a name,
   * whatever its value, or the kept map entries.
   */
  function HashPairs(h: Headers): (r: seq<(string, string)>)
    ensures h.ObjectForm? ==> r == EmittedPairs(h)
    ensures forall k | 0 <= k < |r| :: r[k].0 != ""
  {
    match HeadersOrEmpty(h)
    case ArrayForm(items) =>
      var named := Filter(items, NamedTest);
      assert forall k | 0 <= k < |named| :: named[k] in named;
      ItemPairs(named)
    case ObjectForm(entries) => EntryPairs(Filter(entries, EntryKeptTest))
    case NoHeaders => []
  }

  /**
   * The whole PowerShell text: the URI and method, then the hash of the
   * listed pairs when the headers are a non-empty array or map, then the
   * body only when the call sends one.
   */
  lemma PowerShellWritesHeadersAndBody(call: CallRecord)
    ensures GeneratePowerShell(call)
            == "Invoke-RestMethod -Uri \"" + call.url + "\" -Method " + RequestMethod(call)
               + (if HeaderBlockShown(call.requestHeaders)
                  then " -Headers @{" + Join(Render(HashPairs(call.requestHeaders), HashEntry), "; ") + "}"
                  else "")
               + (if SendsBody(call) then " -Body '" + call.requestBody.value + "'" else "")
  {
  }

  /** For map-shaped headers the PowerShell hash lists exactly the emitted pairs. */
  lemma PowerShellObjectPairs(call: CallRecord)
    requires call.requestHeaders.ObjectForm? && |call.requestHeaders.entries| > 0
    ensures PowerShellHeaders(call.requestHeaders)
            == " -Headers @{" + Join(Render(EmittedPairs(call.requestHeaders), HashEntry), "; ") + "}"
  {
  }

  /**
   * For array-shaped headers the hash also lists named items without a
   * value, which the cURL and fetch generators skip.
   */
  lemma PowerShellKeepsValuelessItem(name: string)
    requires name != ""
    ensures var h := ArrayForm([HeaderItem(name, "", "")]);
            EmittedPairs(h) == []
            && PowerShellHeaders(h) == " -Headers @{" + HashEntry(name, "") + "}"
  {
    var items := [HeaderItem(name, "", "")];
    assert Filter(items, NamedTest) == items by {
      assert Filter(items[1..], NamedTest) == [];
    }
    assert Filter(items, ItemKeptTest) == [] by {
      assert Filter(items[1..], ItemKeptTest) == [];
    }
  }

  // ---------------------------------------------------------------------
  // fetch
  // ---------------------------------------------------------------------

  const NodeRequire := "const fetch = require('node-fetch');\n\n"

  /** `    "name": "value",` and a newline. */
  function FetchLine(name: string, value: string): string {
    "    \"" + name + "\": \"" + value + "\",\n"
  }

  /** The `headers: {…}` block: present for a non-empty array or map. */
  function FetchHeaders(h: Headers): string {
    match HeadersOrEmpty(h)
    case ArrayForm(items) =>
      if |items| > 0 then "  headers: {\n" + ItemLines(items, FetchLine) + "  },\n" else ""
    case ObjectForm(entries) =>
      if |entries| > 0 then "  headers: {\n" + EntryLines(entries, FetchLine) + "  },\n" else ""
    case NoHeaders => ""
  }

  /** `  body: '<body>',` and a newline, when the call sends a body. */
  function FetchBody(call: CallRecord): string {
    if SendsBody(call) then "  body: '" + call.requestBody.value + "',\n" else ""
  }

  /** The opening line and the method line. */
  function FetchOpening(call: CallRecord): string {
    "fetch(\"" + call.url + "\", {\n" + "  method: \"" + RequestMethod(call) + "\",\n"
  }

  /** `fetch("url", { method, headers, body })` without the optional `require` line. */
  function FetchCall(call: CallRecord): (r: string)
    ensures StartsWith(r, FetchOpening(call))
    ensures EndsWith(r, "});")
  {
    var opening := FetchOpening(call);
    var middle := FetchHeaders(call.requestHeaders) + FetchBody(call);
    StartsWithAppend(opening, middle + "});");
    EndsWithAppend(opening + middle, "});");
    AppendAssoc(opening, middle, "});");
    opening + middle + "});"
  }

  /**
   * The whole fetch text: the opening and method lines, then the header
   * block with one line per emitted pair when the headers are a non-empty
   * array or map, then the body line only when the call sends a body, then
   * the closing `});`.
   */
  lemma FetchWritesPairsAndBody(call: CallRecord)
    ensures FetchCall(call)
            == FetchOpening(call)
               + (if HeaderBlockShown(call.requestHeaders)
                  then "  headers: {\n" + Concat(Render(EmittedPairs(call.requestHeaders), FetchLine)) + "  },\n"
                  else "")
               + (if SendsBody(call) then "  body: '" + call.requestBody.value + "',\n" else "")
               + "});"
  {
    FetchHeadersBlock(call.requestHeaders);
  }

  /** The fetch header block holds one line per emitted pair, and is shown for a non-empty array or map. */
  lemma FetchHeadersBlock(h: Headers)
    ensures FetchHeaders(h)
            == if HeaderBlockShown(h) then "  headers: {\n" + Concat(Render(EmittedPairs(h), FetchLine)) + "  },\n" else ""
  {
    HeaderLinesArePairs(h, FetchLine);
  }

  /** `generateFetchCommand(call, isNode)`. */
  function GenerateFetch(call: CallRecord, isNode: bool): (r: string)
    ensures isNode ==> r == NodeRequire + FetchCall(call)
    ensures !isNode ==> r == FetchCall(call)
  {
    (if isNode then NodeRequire else "") + FetchCall(call)
  }

  /** The Node variant is the `require` line followed by the browser variant. */
  lemma FetchNodeAddsRequire(call: CallRecord)
    ensures GenerateFetch(call, true) == NodeRequire + GenerateFetch(call, false)
    ensures StartsWith(GenerateFetch(call, false), "fetch(\"" + call.url + "\", {\n")
    ensures EndsWith(GenerateFetch(call, true), "});") && EndsWith(GenerateFetch(call, false), "});")
  {
    FetchOpensWithCall(call);
    EndsWithLonger(NodeRequire, FetchCall(call), "});");
  }

  lemma FetchOpensWithCall(call: CallRecord)
    ensures StartsWith(FetchCall(call), "fetch(\"" + call.url + "\", {\n")
  {
    var open := "fetch(\"" + call.url + "\", {\n";
    var line := "  method: \"" + RequestMethod(call) + "\",\n";
    assert FetchOpening(call) == open + line;
    StartsWithShorter(FetchCall(call), open, line);
  }

  lemma StartsWithShorter(s: string, a: string, b: string)
    requires StartsWith(s, a + b)
    ensures StartsWith(s, a)
  {
    assert s[..|a|] == (a + b)[..|a|];
  }

  lemma EndsWithLonger(a: string, s: string, p: string)
    requires EndsWith(s, p)
    ensures EndsWith(a + s, p)
  {
    assert (a + s)[|a + s| - |p|..] == s[|s| - |p|..];
  }

  /** The fetch header block lists exactly the pairs the cURL command does. */
  lemma FetchWritesSamePairs(call: CallRecord)
    ensures HeaderLines(call.requestHeaders, FetchLine) == Concat(Render(EmittedPairs(call.requestHeaders), FetchLine))
    ensures HeaderLines(call.requestHeaders, CurlFlag) == Concat(Render(EmittedPairs(call.requestHeaders), CurlFlag))
    ensures FetchHeaders(call.requestHeaders) != "" ==>
              FetchHeaders(call.requestHeaders)
              == "  headers: {\n" + HeaderLines(call.requestHeaders, FetchLine) + "  },\n"
  {
    HeaderLinesArePairs(call.requestHeaders, FetchLine);
    HeaderLinesArePairs(call.requestHeaders, CurlFlag);
  }

  // ---------------------------------------------------------------------
  // Header text
  // ---------------------------------------------------------------------

  /** `String(obj)` of a plain object. */
  const ObjectString := "[object Object]"

  /** One `name: value` line per header, before joining. */
  function HeaderTextLines(h: Headers): (r: seq<string>)
    ensures h.ArrayForm? ==> |r| == |h.items| && forall k | 0 <= k < |r| ::
              r[k] == Or(ItemName(h.items[k]), ObjectString) + ": " + Or(h.items[k].value, ObjectString)
    ensures h.ObjectForm? ==> |r| == |h.entries| && forall k | 0 <= k < |r| ::
              r[k] == h.entries[k].0 + ": " + ValueText(h.entries[k].1)
    ensures h.NoHeaders? ==> r == []
  {
    match h
    case ArrayForm(items) =>
      seq(|items|, k requires 0 <= k < |items| =>
        Or(ItemName(items[k]), ObjectString) + ": " + Or(items[k].value, ObjectString))
    case ObjectForm(entries) =>
      seq(|entries|, k requires 0 <= k < |entries| => entries[k].0 + ": " + ValueText(entries[k].1))
    case NoHeaders => []
  }

  /** `generateHeadersText(headers)`. */
  function HeadersText(h: Headers): string {
    Join(HeaderTextLines(h), "\n")
  }

  /** When no header text holds a newline, splitting the text on newlines gives one line per header. */
  lemma HeadersTextLines(h: Headers)
    requires |HeaderTextLines(h)| > 0
    requires forall k | 0 <= k < |HeaderTextLines(h)| :: '\n' !in HeaderTextLines(h)[k]
    ensures Split(HeadersText(h), '\n') == HeaderTextLines(h)
  {
    SplitJoin(HeaderTextLines(h), '\n');
  }

  // ---------------------------------------------------------------------
  // All calls
  // ---------------------------------------------------------------------

  /** One text per call, in order. */
  function Each(calls: seq<CallRecord>, f: CallRecord -> string): (r: seq<string>)
    ensures |r| == |calls|
    ensures forall k | 0 <= k < |r| :: r[k] == f(calls[k])
  {
    seq(|calls|, k requires 0 <= k < |calls| => f(calls[k]))
  }

  function UrlOf(call: CallRecord): string { call.url }
  function CurlOf(isWindows: bool): CallRecord -> string { (c: CallRecord) => GenerateCurl(c, isWindows) }
  function FetchOf(isNode: bool): CallRecord -> string { (c: CallRecord) => GenerateFetch(c, isNode) }

  function AllUrls(calls: seq<CallRecord>): string { Join(Each(calls, UrlOf), "\n") }
  function AllCurl(calls: seq<CallRecord>, isWindows: bool): string { Join(Each(calls, CurlOf(isWindows)), "\n\n") }
  function AllPowerShell(calls: seq<CallRecord>): string { Join(Each(calls, GeneratePowerShell), "\n\n") }
  function AllFetch(calls: seq<CallRecord>, isNode: bool): string { Join(Each(calls, FetchOf(isNode)), "\n\n") }

  /** Capturing one more call appends its text after a blank line. */
  lemma EachSnoc(calls: seq<CallRecord>, c: CallRecord, f: CallRecord -> string, sep: string)
    requires |calls| > 0
    ensures Join(Each(calls + [c], f), sep) == Join(Each(calls, f), sep) + sep + f(c)
  {
    assert Each(calls + [c], f) == Each(calls, f) + [f(c)];
    JoinSnoc(Each(calls, f), f(c), sep);
  }

  /** The "all" variants list the single-call texts in capture order. */
  lemma AllVariantsInOrder(calls: seq<CallRecord>, c: CallRecord, flag: bool)
    requires |calls| > 0
    ensures AllCurl(calls + [c], flag) == AllCurl(calls, flag) + "\n\n" + GenerateCurl(c, flag)
    ensures AllFetch(calls + [c], flag) == AllFetch(calls, flag) + "\n\n" + GenerateFetch(c, flag)
    ensures AllPowerShell(calls + [c]) == AllPowerShell(calls) + "\n\n" + GeneratePowerShell(c)
    ensures AllUrls(calls + [c]) == AllUrls(calls) + "\n" + c.url
    ensures AllCurl([c], flag) == GenerateCurl(c, flag)
  {
    EachSnoc(calls, c, CurlOf(flag), "\n\n");
    EachSnoc(calls, c, FetchOf(flag), "\n\n");
    EachSnoc(calls, c, GeneratePowerShell, "\n\n");
    EachSnoc(calls, c, UrlOf, "\n");
  }

  /** URLs without newlines are recovered one per line. */
  lemma AllUrlsLines(calls: seq<CallRecord>)
    requires |calls| > 0
    requires forall k | 0 <= k < |calls| :: '\n' !in calls[k].url
    ensures Split(AllUrls(calls), '\n') == Each(calls, UrlOf)
  {
    SplitJoin(Each(calls, UrlOf), '\n');
  }

  // ---------------------------------------------------------------------
  // Formats
  // ---------------------------------------------------------------------

  /** The menu: format value and caption, in menu order. */
  const FormatOptions: seq<(string, string)> := [
    ("curl-bash", "Copy as cURL (bash)"),
    ("curl-cmd", "Copy as cURL (cmd)"),
    ("powershell", "Copy as PowerShell"),
    ("fetch", "Copy as fetch"),
    ("fetch-node", "Copy as fetch (Node.js)"),
    ("url", "Copy URL"),
    ("request-headers", "Copy request headers"),
    ("response-headers", "Copy response headers"),
    ("response", "Copy response"),
    ("stack-trace", "Copy stack trace"),
    ("all-urls", "Copy all URLs"),
    ("all-curl-bash", "Copy all as cURL (bash)"),
    ("all-curl-cmd", "Copy all as cURL (cmd)"),
    ("all-powershell", "Copy all as PowerShell"),
    ("all-fetch", "Copy all as fetch"),
    ("all-fetch-node", "Copy all as fetch (Node.js)"),
    ("all-har", "Copy all as HAR (sanitized)")
  ]

  /** The formats that copy only the selected call. */
  predicate SingleFormat(f: string) {
    f in ["curl-bash", "curl-cmd", "powershell", "fetch", "fetch-node", "url",
          "request-headers", "response-headers", "response", "stack-trace"]
  }

  /** The formats that copy every listed call. */
  predicate AllFormat(f: string) {
    f in ["all-urls", "all-curl-bash", "all-curl-cmd", "all-powershell", "all-fetch",
          "all-fetch-node", "all-har"]
  }

  /**
   * `getCopyText(format)`. `stackTrace` is the call's optional stack trace
   * and `har` the `JSON.stringify` text of the sanitised HAR of all calls.
   */
  function CopyText(format: string, call: CallRecord, allCalls: seq<CallRecord>,
                    stackTrace: Option<string>, har: string): string
  {
    match format
    case "curl-bash" => GenerateCurl(call, false)
    case "curl-cmd" => GenerateCurl(call, true)
    case "powershell" => GeneratePowerShell(call)
    case "fetch" => GenerateFetch(call, false)
    case "fetch-node" => GenerateFetch(call, true)
    case "url" => call.url
    case "request-headers" => HeadersText(call.requestHeaders)
    case "response-headers" => HeadersText(call.responseHeaders)
    case "response" => call.responseBody.GetOr("")
    case "stack-trace" => stackTrace.GetOr("")
    case "all-urls" => AllUrls(allCalls)
    case "all-curl-bash" => AllCurl(allCalls, false)
    case "all-curl-cmd" => AllCurl(allCalls, true)
    case "all-powershell" => AllPowerShell(allCalls)
    case "all-fetch" => AllFetch(allCalls, false)
    case "all-fetch-node" => AllFetch(allCalls, true)
    case "all-har" => har
    case _ => ""
  }

  /** Every menu format is either a single-call or an all-calls format, never both. */
  lemma FormatsPartitioned(k: int)
    requires 0 <= k < |FormatOptions|
    ensures SingleFormat(FormatOptions[k].0) != AllFormat(FormatOptions[k].0)
  {
  }

  /** Formats outside the menu copy the empty string. */
  lemma CopyTextUnknown(format: string, call: CallRecord, allCalls: seq<CallRecord>,
                        stackTrace: Option<string>, har: string)
    requires !SingleFormat(format) && !AllFormat(format)
    ensures CopyText(format, call, allCalls, stackTrace, har) == ""
  {
  }

  /** Single-call formats ignore the call list; all-calls formats ignore the selected call. */
  lemma CopyTextScope(format: string, c1: CallRecord, c2: CallRecord, a1: seq<CallRecord>,
                      a2: seq<CallRecord>, stackTrace: Option<string>, har: string)
    ensures SingleFormat(format) ==>
              CopyText(format, c1, a1, stackTrace, har) == CopyText(format, c1, a2, stackTrace, har)
    ensures AllFormat(format) ==>
              CopyText(format, c1, a1, stackTrace, har) == CopyText(format, c2, a1, stackTrace, har)
  {
  }

  /** `formatOptions.find(opt => opt.value === format)`. */
  function FindOption(options: seq<(string, string)>, format: string): (r: Option<string>)
    ensures r.Some? ==> exists k | 0 <= k < |options| :: options[k] == (format, r.value)
    ensures r.None? ==> forall k | 0 <= k < |options| :: options[k].0 != format
  {
    if |options| == 0 then None
    else if options[0].0 == format then Some(options[0].1)
    else
      var r := FindOption(options[1..], format);
      assert r.Some? ==> exists k | 0 <= k < |options| :: options[k] == (format, r.value) by {
        if r.Some? {
          var j :| 0 <= j < |options[1..]| && options[1..][j] == (format, r.value);
          assert options[j + 1] == options[1..][j];
        }
      }
      r
  }

  /** `getDisplayText(format)`: the caption without "Copy ", or "Copy" for an unknown format. */
  function DisplayText(format: string): string {
    match FindOption(FormatOptions, format)
    case Some(text) => ReplaceFirst(ReplaceFirst(text, "Copy ", ""), "Copy all ", "All ")
    case None => "Copy"
  }

  lemma NoCapitalC(s: string)
    requires forall i | 0 <= i < |s| :: s[i] != 'C'
    ensures !Includes(s, "Copy all ")
  {
    forall i | 0 <= i <= |s| - 9
      ensures !OccursAt(s, "Copy all ", i)
    {
      assert s[i] != 'C';
    }
  }

  lemma StripCopy(caption: string)
    requires CopyCaption(caption)
    ensures ReplaceFirst(ReplaceFirst(caption, "Copy ", ""), "Copy all ", "All ") == caption[5..]
  {
    assert OccursAt(caption, "Copy ", 0);
    assert IndexOf(caption, "Copy ", 0) == 0;
    var tail := caption[5..];
    assert ReplaceFirst(caption, "Copy ", "") == tail;
    forall i | 0 <= i < |tail| ensures tail[i] != 'C' {
      assert tail[i] == caption[i + 5];
    }
    NoCapitalC(tail);
  }

  /** A caption that starts with "Copy " and has no capital C after it. */
  predicate CopyCaption(c: string) {
    |c| >= 5 && c[..5] == "Copy " && forall i | 5 <= i < |c| :: c[i] != 'C'
  }

  lemma CommandCaptions()
    ensures forall k | 0 <= k < 5 :: CopyCaption(FormatOptions[k].1)
  {
    assert CopyCaption("Copy as cURL (bash)");
    assert CopyCaption("Copy as cURL (cmd)");
    assert CopyCaption("Copy as PowerShell");
    assert CopyCaption("Copy as fetch");
    assert CopyCaption("Copy as fetch (Node.js)");
  }

  lemma FieldCaptions()
    ensures forall k | 5 <= k < 10 :: CopyCaption(FormatOptions[k].1)
  {
    assert CopyCaption("Copy URL");
    assert CopyCaption("Copy request headers");
    assert CopyCaption("Copy response headers");
    assert CopyCaption("Copy response");
    assert CopyCaption("Copy stack trace");
  }

  lemma AllCaptions()
    ensures forall k | 10 <= k < 13 :: CopyCaption(FormatOptions[k].1)
  {
    assert CopyCaption("Copy all URLs");
    assert CopyCaption("Copy all as cURL (bash)");
    assert CopyCaption("Copy all as cURL (cmd)");
  }

  lemma MoreAllCaptions()
    ensures forall k | 13 <= k < |FormatOptions| :: CopyCaption(FormatOptions[k].1)
  {
    assert CopyCaption("Copy all as PowerShell");
    assert CopyCaption("Copy all as fetch");
    assert CopyCaption("Copy all as fetch (Node.js)");
    assert CopyCaption("Copy all as HAR (sanitized)");
  }

  /**
   * Only the leading "Copy " of a caption is removed: the "Copy all "
   * replacement never applies, so "Copy all URLs" shows as "all URLs".
   */
  lemma DisplayTextDropsCopy(format: string)
    requires FindOption(FormatOptions, format).Some?
    ensures DisplayText(format) == FindOption(FormatOptions, format).value[5..]
  {
    var caption := FindOption(FormatOptions, format).value;
    var k :| 0 <= k < |FormatOptions| && FormatOptions[k] == (format, caption);
    CommandCaptions();
    FieldCaptions();
    AllCaptions();
    MoreAllCaptions();
    assert caption == FormatOptions[k].1;
    StripCopy(caption);
  }
}
