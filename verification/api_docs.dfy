/**
 * The API documentation table: recognising calls to the documented
 * service, matching a call's path and method against the table's route
 * templates, and searching the table. The call's pathname is passed in
 * already parsed.
 */
module ApiDocs {
  import opened Wrappers
  import opened Strings
  import opened Seqs

  datatype Doc = Doc(endpoint: string, httpMethod: string, documentationUrl: string, description: string)

  const ShipmentsRoute := "/api/v2/shipments"
  const ShipmentPrefix := "/api/v2/shipments/"
  const QuotesRoute := "/api/v2/quotes"

  /** The documentation table; the item route is `/api/v2/shipments/{id}`. */
  const Table: seq<Doc> := [
    Doc(ShipmentsRoute, "GET", "https://docs.shipwell.com/api/shipments#list", "List shipments"),
    Doc(ShipmentsRoute, "POST", "https://docs.shipwell.com/api/shipments#create", "Create a new shipment"),
    Doc(ShipmentPrefix + "{id}", "GET", "https://docs.shipwell.com/api/shipments#get", "Get shipment by ID"),
    Doc(ShipmentPrefix + "{id}", "PUT", "https://docs.shipwell.com/api/shipments#update", "Update shipment"),
    Doc(QuotesRoute, "GET", "https://docs.shipwell.com/api/quotes#list", "List quotes"),
    Doc(QuotesRoute, "POST", "https://docs.shipwell.com/api/quotes#create", "Create a new quote")
  ]

  // ---------------------------------------------------------------------
  // Service recognition
  // ---------------------------------------------------------------------

  /** `isShipwellCall(url)`. */
  predicate IsServiceCall(url: string) {
    Includes(url, "shipwell.com") || Includes(url, "shipwell")
  }

  /** The first disjunct is subsumed: a call is recognised iff its URL contains "shipwell". */
  lemma IsServiceCallIff(url: string)
    ensures IsServiceCall(url) <==> Includes(url, "shipwell")
  {
    if Includes(url, "shipwell.com") {
      var i :| 0 <= i <= |url| - 12 && OccursAt(url, "shipwell.com", i);
      assert url[i..i + 8] == url[i..i + 12][..8];
      assert OccursAt(url, "shipwell", i);
    }
  }

  // ---------------------------------------------------------------------
  // Route templates
  // ---------------------------------------------------------------------

  /** A route template after `{…}` placeholders become `[^/]+`. */
  datatype Piece = Lit(c: char) | Param

  function Lits(t: string): (r: seq<Piece>)
    ensures |r| == |t|
    ensures forall i | 0 <= i < |t| :: r[i] == Lit(t[i])
  {
    seq(|t|, i requires 0 <= i < |t| => Lit(t[i]))
  }

  /** Index of the first `c` in `s`, or -1. */
  function CharIndex(s: string, c: char): (r: int)
    ensures -1 <= r < |s|
    ensures r >= 0 ==> s[r] == c
    ensures forall i | 0 <= i < |s| && (r == -1 || i < r) :: s[i] != c
  {
    if |s| == 0 then -1
    else if s[0] == c then 0
    else
      var r := CharIndex(s[1..], c);
      assert forall i | 1 <= i < |s| :: s[i] == s[1..][i - 1];
      if r == -1 then -1 else r + 1
  }

  /**
   * `endpoint.replace(/{[^}]+}/g, "[^/]+")`, read as a template: a `{`
   * followed by at least one character and the next `}` is a placeholder;
   * any other character stands for itself.
   */
  function Parse(t: string): seq<Piece>
    decreases |t|
  {
    if |t| == 0 then []
    else
      var close := CharIndex(t[1..], '}');
      if t[0] == '{' && close >= 1 then [Param] + Parse(t[close + 2..])
      else [Lit(t[0])] + Parse(t[1..])
  }

  predicate NoSlash(s: string) {
    forall j | 0 <= j < |s| :: s[j] != '/'
  }

  /** The whole of `s` matches the template: a placeholder takes one or more non-`/` characters. */
  predicate Matches(ps: seq<Piece>, s: string)
    decreases |ps|
  {
    if |ps| == 0 then s == []
    else match ps[0]
      case Lit(c) => |s| > 0 && s[0] == c && Matches(ps[1..], s[1..])
      case Param => exists k | 1 <= k <= |s| :: NoSlash(s[..k]) && Matches(ps[1..], s[k..])
  }

  /** `new RegExp(pattern + "$").test(path)`: some suffix of the path matches. */
  predicate EndsWithTemplate(ps: seq<Piece>, path: string) {
    exists i | 0 <= i <= |path| :: Matches(ps, path[i..])
  }

  /** A template without braces is itself. */
  lemma {:induction false} ParseBraceFree(t: string)
    requires '{' !in t
    ensures Parse(t) == Lits(t)
    decreases |t|
  {
    if |t| > 0 {
      ParseBraceFree(t[1..]);
    }
  }

  /** A literal template followed by one placeholder. */
  lemma {:induction false} ParseTrailingParam(a: string, name: string)
    requires '{' !in a && '}' !in name && |name| > 0
    ensures Parse(a + ("{" + name + "}")) == Lits(a) + [Param]
    decreases |a|
  {
    var t := a + ("{" + name + "}");
    if |a| == 0 {
      assert t == "{" + name + "}";
      var close := CharIndex(t[1..], '}');
      assert t[1..] == name + "}";
      assert t[1..][|name|] == '}';
      assert close == |name|;
      assert t[close + 2..] == [];
    } else {
      assert t[1..] == a[1..] + ("{" + name + "}");
      ParseTrailingParam(a[1..], name);
    }
  }

  /** A literal template matches exactly its own text. */
  lemma {:induction false} LiteralMatches(t: string, s: string)
    ensures Matches(Lits(t), s) <==> s == t
    decreases |t|
  {
    if |t| > 0 {
      assert Lits(t)[1..] == Lits(t[1..]);
      LiteralMatches(t[1..], if |s| > 0 then s[1..] else s);
      if |s| > 0 && s[0] == t[0] && s[1..] == t[1..] {
        assert s == [s[0]] + s[1..] && t == [t[0]] + t[1..];
      }
    }
  }

  /** A literal template followed by a placeholder matches its text followed by a non-empty, slash-free segment. */
  lemma {:induction false} ParamLastMatches(t: string, s: string)
    ensures Matches(Lits(t) + [Param], s) <==>
              StartsWith(s, t) && |s| > |t| && NoSlash(s[|t|..])
    decreases |t|
  {
    var ps := Lits(t) + [Param];
    if |t| == 0 {
      assert ps == [Param];
      assert ps[1..] == [];
      if |s| > 0 && NoSlash(s) {
        assert s[..|s|] == s && s[|s|..] == [];
      }
    } else {
      assert ps[1..] == Lits(t[1..]) + [Param];
      if |s| > 0 {
        ParamLastMatches(t[1..], s[1..]);
        if |s| >= |t| {
          assert s[1..][|t| - 1..] == s[|t|..];
          assert s[..|t|] == [s[0]] + s[1..][..|t| - 1];
          assert t == [t[0]] + t[1..];
        }
      }
    }
  }

  /** A brace-free route matches exactly the paths ending with it. */
  lemma LiteralRoute(t: string, path: string)
    ensures EndsWithTemplate(Lits(t), path) <==> EndsWith(path, t)
  {
    if EndsWith(path, t) {
      LiteralMatches(t, path[|path| - |t|..]);
    }
    if EndsWithTemplate(Lits(t), path) {
      var i :| 0 <= i <= |path| && Matches(Lits(t), path[i..]);
      LiteralMatches(t, path[i..]);
    }
  }

  /** The match is anchored at the end only: any prefix before a matching path still matches. */
  lemma AnchoredAtEndOnly(ps: seq<Piece>, prefix: string, path: string)
    requires EndsWithTemplate(ps, path)
    ensures EndsWithTemplate(ps, prefix + path)
  {
    var i :| 0 <= i <= |path| && Matches(ps, path[i..]);
    assert (prefix + path)[|prefix| + i..] == path[i..];
  }

  // ---------------------------------------------------------------------
  // Documentation lookup
  // ---------------------------------------------------------------------

  predicate DocMatches(d: Doc, path: string, httpMethod: string) {
    EndsWithTemplate(Parse(d.endpoint), path) && d.httpMethod == Upper(httpMethod)
  }

  /** `shipwellDocs.find(...)`, as an index. */
  function FindDoc(docs: seq<Doc>, path: string, httpMethod: string): (r: int)
    ensures -1 <= r < |docs|
    ensures r >= 0 ==> DocMatches(docs[r], path, httpMethod)
    ensures forall i | 0 <= i < |docs| && (r == -1 || i < r) :: !DocMatches(docs[i], path, httpMethod)
  {
    if |docs| == 0 then -1
    else if DocMatches(docs[0], path, httpMethod) then 0
    else
      var r := FindDoc(docs[1..], path, httpMethod);
      assert forall i | 1 <= i < |docs| :: docs[i] == docs[1..][i - 1];
      if r == -1 then -1 else r + 1
  }

  /**
   * `getDocumentationForCall(url, method)`, with `path` the URL's
   * pathname: the first table entry whose route and method match.
   */
  function DocumentationForCall(url: string, path: string, httpMethod: string): (r: Option<Doc>)
    ensures !IsServiceCall(url) ==> r.None?
    ensures r.Some? ==> exists k | 0 <= k < |Table| ::
              && Table[k] == r.value && DocMatches(Table[k], path, httpMethod)
              && forall j | 0 <= j < k :: !DocMatches(Table[j], path, httpMethod)
    ensures IsServiceCall(url) && r.None? ==> forall k | 0 <= k < |Table| :: !DocMatches(Table[k], path, httpMethod)
  {
    if !IsServiceCall(url) then None
    else
      var k := FindDoc(Table, path, httpMethod);
      if k == -1 then None else Some(Table[k])
  }

  /** The request method is compared case-insensitively. */
  lemma MethodCaseIgnored(url: string, path: string, httpMethod: string)
    ensures DocumentationForCall(url, path, httpMethod) == DocumentationForCall(url, path, Upper(httpMethod))
    ensures DocumentationForCall(url, path, httpMethod) == DocumentationForCall(url, path, Lower(httpMethod))
  {
    UpperIdempotent(httpMethod);
    FindDocByUpper(Table, path, httpMethod, Upper(httpMethod));
    FindDocByUpper(Table, path, httpMethod, Lower(httpMethod));
  }

  lemma {:induction false} FindDocByUpper(docs: seq<Doc>, path: string, m1: string, m2: string)
    requires Upper(m1) == Upper(m2)
    ensures FindDoc(docs, path, m1) == FindDoc(docs, path, m2)
  {
    if |docs| > 0 {
      FindDocByUpper(docs[1..], path, m1, m2);
    }
  }

  /** The lookup returns the first matching index. */
  lemma FindDocFirst(docs: seq<Doc>, path: string, httpMethod: string, k: int)
    requires 0 <= k < |docs| && DocMatches(docs[k], path, httpMethod)
    requires forall j | 0 <= j < k :: !DocMatches(docs[j], path, httpMethod)
    ensures FindDoc(docs, path, httpMethod) == k
  {
  }

  lemma UpperIdempotent(s: string)
    ensures Upper(Upper(s)) == Upper(s)
    ensures Upper(Lower(s)) == Upper(s)
  {
  }

  /** The shipment list entries match exactly the paths ending in `/api/v2/shipments`. */
  lemma ShipmentListRoute(path: string)
    ensures EndsWithTemplate(Parse(Table[0].endpoint), path) <==> EndsWith(path, ShipmentsRoute)
  {
    ParseBraceFree(ShipmentsRoute);
    LiteralRoute(ShipmentsRoute, path);
  }

  /** The shipment item route is its prefix followed by one placeholder. */
  lemma ShipmentItemRoute()
    ensures Parse(ShipmentPrefix + "{id}") == Lits(ShipmentPrefix) + [Param]
  {
    assert "{id}" == "{" + "id" + "}";
    ParseTrailingParam(ShipmentPrefix, "id");
  }

  /**
   * A PUT (in any case) to `/api/v2/shipments/<segment>` on the service,
   * with a non-empty slash-free segment and anything before it, finds the
   * update entry.
   */
  lemma ShipmentUpdateLookup(url: string, path: string, segment: string, httpMethod: string)
    requires IsServiceCall(url)
    requires EndsWith(path, ShipmentPrefix + segment) && segment != "" && NoSlash(segment)
    requires Upper(httpMethod) == "PUT"
    ensures DocumentationForCall(url, path, httpMethod) == Some(Table[3])
  {
    var d := Table[3];
    assert d.endpoint == ShipmentPrefix + "{id}" && d.httpMethod == "PUT";
    ItemRouteMatches(path, segment);
    assert DocMatches(d, path, httpMethod);
    assert Table[0].httpMethod == "GET" && Table[1].httpMethod == "POST" && Table[2].httpMethod == "GET";
    FindDocFirst(Table, path, httpMethod, 3);
  }

  lemma ItemRouteMatches(path: string, segment: string)
    requires EndsWith(path, ShipmentPrefix + segment) && segment != "" && NoSlash(segment)
    ensures EndsWithTemplate(Parse(ShipmentPrefix + "{id}"), path)
  {
    ShipmentItemRoute();
    var t := ShipmentPrefix;
    var tail := t + segment;
    var i := |path| - |tail|;
    assert path[i..] == tail;
    ParamLastMatches(t, path[i..]);
    assert path[i..][..|t|] == t && path[i..][|t|..] == segment;
  }

  /** A URL that does not mention the service finds nothing, whatever its path and method. */
  lemma OtherHostLookup(url: string, path: string, httpMethod: string)
    requires !Includes(url, "shipwell")
    ensures DocumentationForCall(url, path, httpMethod) == None
  {
    IsServiceCallIff(url);
  }

  // ---------------------------------------------------------------------
  // Table access and search
  // ---------------------------------------------------------------------

  /** `getAllDocumentation()`: a copy of the table. */
  function AllDocumentation(): (r: seq<Doc>)
    ensures |r| == |Table| && forall i | 0 <= i < |r| :: r[i] == Table[i]
  {
    Table[..]
  }

  predicate DocHit(d: Doc, lq: string) {
    Includes(Lower(d.endpoint), lq) || Includes(Lower(d.description), lq) || Includes(Lower(d.httpMethod), lq)
  }

  function HitTest(lq: string): Doc -> bool {
    (d: Doc) => DocHit(d, lq)
  }

  /** `searchDocumentation(query)`. */
  function SearchDocumentation(query: string): (r: seq<Doc>)
    ensures forall d :: d in r <==> d in Table && DocHit(d, Lower(query))
    ensures IsSubsequence(r, Table)
  {
    FilterIsSubsequence(Table, HitTest(Lower(query)));
    Filter(Table, HitTest(Lower(query)))
  }

  /** The search is case-insensitive in the query. */
  lemma SearchIgnoresCase(query: string)
    ensures SearchDocumentation(Lower(query)) == SearchDocumentation(query)
  {
    LowerIdempotent(query);
  }

  /** An empty query keeps the whole table. */
  lemma EmptySearchIsAll()
    ensures SearchDocumentation("") == AllDocumentation()
  {
    forall d | d in Table ensures DocHit(d, Lower("")) {
      assert OccursAt(Lower(d.endpoint), "", 0);
    }
    assert forall i | 0 <= i < |Table| :: HitTest(Lower(""))(Table[i]) by {
      forall i | 0 <= i < |Table| ensures HitTest(Lower(""))(Table[i]) {
        assert Table[i] in Table;
      }
    }
    FilterAll(Table, HitTest(Lower("")));
  }
}
