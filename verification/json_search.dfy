/**
 * The body search locator: the flat, overlapping substring scan that
 * `enhancedJsonSearch` returns, and the depth-bounded structural walk of
 * `searchJsonStructure` with its path-sorted key/value results.
 */
module JsonSearch {
  import opened Wrappers
  import opened Strings
  import opened Seqs
  import opened Sorting
  import opened Json

  /** Nodes deeper than this are not visited. */
  const MaxDepth := 20

  /** The text compared: as is when case-sensitive, lower-cased otherwise. */
  function Fold(s: string, caseSensitive: bool): (r: string)
    ensures |r| == |s|
  {
    if caseSensitive then s else Lower(s)
  }

  // ---------------------------------------------------------------------
  // Overlapping occurrences: indexOf from found + 1
  // ---------------------------------------------------------------------

  function OccurrencesFrom(h: string, q: string, from: nat): (r: seq<nat>)
    requires |q| > 0
    ensures forall k | 0 <= k < |r| :: from <= r[k] && OccursAt(h, q, r[k])
    ensures forall k | 0 <= k < |r| - 1 :: r[k] < r[k + 1]
    decreases |h| - from
  {
    var i := IndexOf(h, q, from);
    if i == -1 then [] else [i as nat] + OccurrencesFrom(h, q, i + 1)
  }

  /** Every occurrence at or after `from` is reported. */
  lemma {:induction false} OccurrencesComplete(h: string, q: string, from: nat, j: int)
    requires |q| > 0 && from <= j && OccursAt(h, q, j)
    ensures j in OccurrencesFrom(h, q, from)
    decreases |h| - from
  {
    var i := IndexOf(h, q, from);
    if i != j {
      OccurrencesComplete(h, q, i + 1, j);
    }
  }

  /** The reported positions are exactly the occurrences. */
  lemma OccurrencesExact(h: string, q: string, j: int)
    requires |q| > 0
    ensures j in OccurrencesFrom(h, q, 0) <==> OccursAt(h, q, j)
  {
    if OccursAt(h, q, j) {
      OccurrencesComplete(h, q, 0, j);
    }
  }

  // ---------------------------------------------------------------------
  // The flat scan
  // ---------------------------------------------------------------------

  datatype FlatHit = FlatHit(position: nat, length: nat, text: string)

  /** The result for an occurrence at `p`: the original, un-lowered text there. */
  function HitAt(text: string, query: string, p: nat): FlatHit {
    FlatHit(p, |query|, Substring(text, p, p + |query|))
  }

  /** One flat result per position: the original, un-lowered text found there. */
  function FlatHits(text: string, query: string, ps: seq<nat>): (r: seq<FlatHit>)
    ensures |r| == |ps|
  {
    if |ps| == 0 then []
    else [HitAt(text, query, ps[0])] + FlatHits(text, query, ps[1..])
  }

  lemma {:induction false} FlatHitsAt(text: string, query: string, ps: seq<nat>)
    ensures forall k | 0 <= k < |ps| :: FlatHits(text, query, ps)[k] == HitAt(text, query, ps[k])
  {
    if |ps| > 0 {
      FlatHitsAt(text, query, ps[1..]);
    }
  }

  /** The `while (position < searchText.length)` scan, as a function. */
  function FlatScan(text: string, query: string, caseSensitive: bool): seq<FlatHit>
    requires |query| > 0
  {
    FlatHits(text, query, OccurrencesFrom(Fold(text, caseSensitive), Fold(query, caseSensitive), 0))
  }

  /**
   * Every flat result sits at an occurrence of the folded query in the
   * folded text, spans the query's length, and carries the original text
   * found there; positions strictly increase.
   */
  lemma FlatScanSound(text: string, query: string, caseSensitive: bool)
    requires |query| > 0
    ensures var r := FlatScan(text, query, caseSensitive);
            && (forall k | 0 <= k < |r| ::
                  && OccursAt(Fold(text, caseSensitive), Fold(query, caseSensitive), r[k].position)
                  && r[k].length == |query|
                  && r[k].text == text[r[k].position..r[k].position + |query|])
            && (forall k | 0 <= k < |r| - 1 :: r[k].position < r[k + 1].position)
  {
    FlatHitsAt(text, query, OccurrencesFrom(Fold(text, caseSensitive), Fold(query, caseSensitive), 0));
  }

  /** Every occurrence of the folded query in the folded text is reported. */
  lemma FlatScanComplete(text: string, query: string, caseSensitive: bool, j: int)
    requires |query| > 0
    requires OccursAt(Fold(text, caseSensitive), Fold(query, caseSensitive), j)
    ensures exists k | 0 <= k < |FlatScan(text, query, caseSensitive)| ::
              FlatScan(text, query, caseSensitive)[k].position == j
  {
    var ps := OccurrencesFrom(Fold(text, caseSensitive), Fold(query, caseSensitive), 0);
    OccurrencesComplete(Fold(text, caseSensitive), Fold(query, caseSensitive), 0, j);
    var k :| 0 <= k < |ps| && ps[k] == j;
    FlatHitsAt(text, query, ps);
    assert FlatScan(text, query, caseSensitive)[k].position == j;
  }

  lemma FlatHitsStep(text: string, query: string, h: string, q: string, position: nat)
    requires |q| > 0 && IndexOf(h, q, position) != -1
    ensures var found := IndexOf(h, q, position);
            FlatHits(text, query, OccurrencesFrom(h, q, position))
            == [HitAt(text, query, found)]
               + FlatHits(text, query, OccurrencesFrom(h, q, found + 1))
  {
    var found := IndexOf(h, q, position);
    assert OccurrencesFrom(h, q, position) == [found as nat] + OccurrencesFrom(h, q, found + 1);
    assert ([found as nat] + OccurrencesFrom(h, q, found + 1))[1..] == OccurrencesFrom(h, q, found + 1);
  }

  lemma ScanStep(text: string, query: string, h: string, q: string, position: nat,
                 results: seq<FlatHit>, all: seq<FlatHit>, next: seq<FlatHit>, nextPosition: nat)
    requires |q| > 0 && IndexOf(h, q, position) != -1
    requires results + FlatHits(text, query, OccurrencesFrom(h, q, position)) == all
    requires nextPosition == IndexOf(h, q, position) + 1
    requires next == results + [HitAt(text, query, nextPosition - 1)]
    ensures next + FlatHits(text, query, OccurrencesFrom(h, q, nextPosition)) == all
  {
    var found := IndexOf(h, q, position);
    var rest := FlatHits(text, query, OccurrencesFrom(h, q, found + 1));
    FlatHitsStep(text, query, h, q, position);
    assert (results + [HitAt(text, query, found)]) + rest == results + ([HitAt(text, query, found)] + rest);
  }

  lemma ScanDone(text: string, query: string, h: string, q: string, position: nat,
                 results: seq<FlatHit>, all: seq<FlatHit>)
    requires |q| > 0 && (position >= |h| || IndexOf(h, q, position) == -1)
    requires results + FlatHits(text, query, OccurrencesFrom(h, q, position)) == all
    ensures results == all
  {
    assert OccurrencesFrom(h, q, position) == [];
  }

  /** The scan loop itself, with `indexOf` restarted one past each hit. */
  method FlatScanLoop(text: string, query: string, caseSensitive: bool) returns (results: seq<FlatHit>)
    requires |query| > 0
    ensures results == FlatScan(text, query, caseSensitive)
  {
    var h := Fold(text, caseSensitive);
    var q := Fold(query, caseSensitive);
    ghost var all := FlatHits(text, query, OccurrencesFrom(h, q, 0));
    results := [];
    var position: nat := 0;
    while position < |h|
      invariant results + FlatHits(text, query, OccurrencesFrom(h, q, position)) == all
      decreases |h| - position
    {
      var found := IndexOf(h, q, position);
      if found == -1 {
        break;
      }
      var next := results + [HitAt(text, query, found)];
      ScanStep(text, query, h, q, position, results, all, next, found + 1);
      results, position := next, found + 1;
    }
    ScanDone(text, query, h, q, position, results, all);
  }

  /**
   * `enhancedJsonSearch(text, query)`. Whether `JSON.parse(text)` succeeds
   * does not matter: the structured results computed on success are
   * discarded and both branches run the same flat scan, so the parse is
   * not modelled.
   */
  function EnhancedJsonSearch(text: string, query: string, caseSensitive: bool)
    : (r: seq<FlatHit>)
    ensures BlankQuery(query) || text == "" ==> r == []
    ensures !BlankQuery(query) && text != "" ==> |query| > 0 && r == FlatScan(text, query, caseSensitive)
  {
    if BlankQuery(query) || text == "" then [] else FlatScan(text, query, caseSensitive)
  }

  // ---------------------------------------------------------------------
  // The structural walk
  // ---------------------------------------------------------------------

  datatype HitKind = KeyHit | ValueHit

  datatype StructHit = StructHit(position: nat, length: nat, text: string, path: string, kind: HitKind, context: string)

  /** The first 50 characters followed by "..." when longer. */
  function Truncate50(v: string): (r: string)
    ensures |v| <= 50 ==> r == v
    ensures |v| > 50 ==> |r| == 53 && r[..50] == v[..50] && r[50..] == "..."
  {
    if |v| > 50 then v[..50] + "..." else v
  }

  /** The context of a result in a bare string. */
  function TextContext(s: string): string {
    "Text: \"" + Truncate50(s) + "\""
  }

  /** The context of a result in the string value of property `key`. */
  function ValueContext(key: string, s: string): string {
    "Value of \"" + key + "\": \"" + Truncate50(s) + "\""
  }

  /** `parent.key`, or just `key` at the root. */
  function KeyPath(parent: string, key: string): string {
    if parent == "" then key else parent + "." + key
  }

  function IndexPath(parent: string, i: nat): string {
    parent + "[" + NatToString(i) + "]"
  }

  function ValueHits(s: string, query: string, path: string, context: string, ps: seq<nat>): (r: seq<StructHit>)
    ensures |r| == |ps|
    ensures forall k | 0 <= k < |r| ::
              r[k] == StructHit(ps[k], |query|, Substring(s, ps[k], ps[k] + |query|), path, ValueHit, context)
  {
    if |ps| == 0 then []
    else [StructHit(ps[0], |query|, Substring(s, ps[0], ps[0] + |query|), path, ValueHit, context)]
         + ValueHits(s, query, path, context, ps[1..])
  }

  /** A 'value' result for every overlapping occurrence in a string. */
  function StringHits(s: string, query: string, caseSensitive: bool, path: string, context: string)
    : (r: seq<StructHit>)
    requires |query| > 0
    ensures forall k | 0 <= k < |r| ::
              OccursAt(Fold(s, caseSensitive), Fold(query, caseSensitive), r[k].position)
              && r[k].length == |query| && r[k].path == path && r[k].kind == ValueHit
    ensures forall k | 0 <= k < |r| - 1 :: r[k].position < r[k + 1].position
  {
    ValueHits(s, query, path, context, OccurrencesFrom(Fold(s, caseSensitive), Fold(query, caseSensitive), 0))
  }

  /** The 'value' result of a string at a given occurrence. */
  lemma StringHitAt(s: string, query: string, caseSensitive: bool, path: string, context: string, j: int)
    returns (x: StructHit)
    requires |query| > 0
    requires OccursAt(Fold(s, caseSensitive), Fold(query, caseSensitive), j)
    ensures x in StringHits(s, query, caseSensitive, path, context)
    ensures x.position == j && x.kind == ValueHit && x.path == path
  {
    var r := StringHits(s, query, caseSensitive, path, context);
    StringHitsComplete(s, query, caseSensitive, path, context, j);
    var k :| 0 <= k < |r| && r[k].position == j;
    x := r[k];
  }

  /** Every overlapping occurrence of the query in the string has its 'value' result. */
  lemma StringHitsComplete(s: string, query: string, caseSensitive: bool, path: string, context: string, j: int)
    requires |query| > 0
    requires OccursAt(Fold(s, caseSensitive), Fold(query, caseSensitive), j)
    ensures exists k | 0 <= k < |StringHits(s, query, caseSensitive, path, context)| ::
              StringHits(s, query, caseSensitive, path, context)[k].position == j
  {
    var ps := OccurrencesFrom(Fold(s, caseSensitive), Fold(query, caseSensitive), 0);
    OccurrencesComplete(Fold(s, caseSensitive), Fold(query, caseSensitive), 0, j);
    var k :| 0 <= k < |ps| && ps[k] == j;
    assert StringHits(s, query, caseSensitive, path, context)[k].position == j;
  }

  /** A number or boolean property: one result spanning its whole text. */
  function ScalarHits(t: string, key: string, query: string, caseSensitive: bool, path: string)
    : (r: seq<StructHit>)
  {
    if Includes(Fold(t, caseSensitive), Fold(query, caseSensitive))
    then [StructHit(0, |t|, t, path, ValueHit, "Value of \"" + key + "\": " + t)]
    else []
  }

  function Walk(v: Json, path: string, depth: nat, query: string, caseSensitive: bool): (r: seq<StructHit>)
    requires |query| > 0
    ensures depth > MaxDepth ==> r == []
    decreases v, 1
  {
    if depth > MaxDepth then []
    else match v
      case JArray(items) => WalkItems(items, 0, path, depth, query, caseSensitive)
      case JObject(ms) => WalkMembers(ms, path, depth, query, caseSensitive)
      case JString(s) => StringHits(s, query, caseSensitive, path, TextContext(s))
      case _ => []
  }

  /** Array elements `start..`, each at `path[i]`, one level deeper. */
  function WalkItems(items: seq<Json>, start: nat, path: string, depth: nat, query: string, caseSensitive: bool)
    : (r: seq<StructHit>)
    requires |query| > 0
    decreases items, 0
  {
    if |items| == 0 then []
    else Walk(items[0], IndexPath(path, start), depth + 1, query, caseSensitive)
         + WalkItems(items[1..], start + 1, path, depth, query, caseSensitive)
  }

  function WalkMembers(ms: seq<Member>, path: string, depth: nat, query: string, caseSensitive: bool)
    : (r: seq<StructHit>)
    requires |query| > 0
    decreases ms, 0
  {
    if |ms| == 0 then []
    else MemberHits(ms[0], path, depth, query, caseSensitive) + WalkMembers(ms[1..], path, depth, query, caseSensitive)
  }

  /** One object property: its key, its scalar value, then its nested value one level deeper. */
  function MemberHits(m: Member, path: string, depth: nat, query: string, caseSensitive: bool)
    : (r: seq<StructHit>)
    requires |query| > 0
    decreases m, 0
  {
    var kp := KeyPath(path, m.key);
    KeyHits(m.key, kp, query, caseSensitive) + PropertyValueHits(m.key, m.value, kp, query, caseSensitive)
    + (if IsContainer(m.value) then Walk(m.value, kp, depth + 1, query, caseSensitive) else [])
  }

  /** The 'key' result of a property whose name contains the query. */
  function KeyHits(key: string, kp: string, query: string, caseSensitive: bool): seq<StructHit> {
    if Includes(Fold(key, caseSensitive), Fold(query, caseSensitive))
    then [StructHit(0, |key|, key, kp, KeyHit, "Property name: \"" + key + "\"")]
    else []
  }

  /** The 'value' results of a property's own string, number or boolean value. */
  function PropertyValueHits(key: string, v: Json, kp: string, query: string, caseSensitive: bool)
    : seq<StructHit>
    requires |query| > 0
  {
    match v
    case JString(s) => StringHits(s, query, caseSensitive, kp, ValueContext(key, s))
    case JNumber(t) => ScalarHits(t, key, query, caseSensitive, kp)
    case JBool(b) => ScalarHits(BoolText(b), key, query, caseSensitive, kp)
    case _ => []
  }

  /** The comparator `a.path.localeCompare(b.path)`, as code-unit order. */
  function PathLe(): (StructHit, StructHit) -> bool {
    (a: StructHit, b: StructHit) => LexLe(a.path, b.path)
  }

  lemma PathLeTotalPreorder()
    ensures TotalPreorder(PathLe())
  {
    forall a: StructHit, b: StructHit ensures PathLe()(a, b) || PathLe()(b, a) {
      LexLeTotal(a.path, b.path);
    }
    forall a: StructHit, b: StructHit, c: StructHit | PathLe()(a, b) && PathLe()(b, c)
      ensures PathLe()(a, c)
    {
      LexLeTrans(a.path, b.path, c.path);
    }
  }

  /** `searchJsonStructure(data, query)`: the walk from the root, sorted by path. */
  function StructuredSearch(data: Json, query: string, caseSensitive: bool): (r: seq<StructHit>)
    ensures BlankQuery(query) ==> r == []
    ensures !BlankQuery(query) ==>
              SortedBy(r, PathLe()) && multiset(r) == multiset(Walk(data, "", 0, query, caseSensitive))
  {
    if BlankQuery(query) then []
    else
      var found := Walk(data, "", 0, query, caseSensitive);
      PathLeTotalPreorder();
      SortBySorted(found, PathLe());
      SortByPermutation(found, PathLe());
      SortBy(found, PathLe())
  }

  /** Results with equal paths keep the order in which the walk found them. */
  lemma StructuredSearchStable(data: Json, query: string, caseSensitive: bool, y: StructHit)
    requires !BlankQuery(query)
    ensures Filter(StructuredSearch(data, query, caseSensitive), EquivTo(PathLe(), y))
            == Filter(Walk(data, "", 0, query, caseSensitive), EquivTo(PathLe(), y))
  {
    PathLeTotalPreorder();
    SortByStable(Walk(data, "", 0, query, caseSensitive), PathLe(), y);
  }

  // ---------------------------------------------------------------------
  // Facts about the walk
  // ---------------------------------------------------------------------

  /** One unfolding of `WalkMembers`, kept apart so that callers need not unfold `MemberHits`. */
  lemma WalkMembersCons(ms: seq<Member>, path: string, depth: nat, query: string, caseSensitive: bool)
    requires |query| > 0 && |ms| > 0
    ensures WalkMembers(ms, path, depth, query, caseSensitive)
            == MemberHits(ms[0], path, depth, query, caseSensitive) + WalkMembers(ms[1..], path, depth, query, caseSensitive)
  {
  }

  /** The results of each property of `ms`, in order. */
  ghost function MemberGroups(ms: seq<Member>, path: string, depth: nat, query: string, caseSensitive: bool)
    : (r: seq<seq<StructHit>>)
    requires |query| > 0
    ensures |r| == |ms|
  {
    seq(|ms|, k requires 0 <= k < |ms| => MemberHits(ms[k], path, depth, query, caseSensitive))
  }

  /** Dropping the first property drops the first group. */
  lemma MemberGroupsTail(ms: seq<Member>, path: string, depth: nat, query: string, caseSensitive: bool)
    requires |query| > 0 && |ms| > 0
    ensures MemberGroups(ms, path, depth, query, caseSensitive)[1..]
            == MemberGroups(ms[1..], path, depth, query, caseSensitive)
  {
    var g := MemberGroups(ms, path, depth, query, caseSensitive);
    var h := MemberGroups(ms[1..], path, depth, query, caseSensitive);
    forall k | 0 <= k < |h| ensures g[1..][k] == h[k] {
      assert ms[1..][k] == ms[k + 1];
    }
  }

  /** The walk of an object's properties is the concatenation of each property's results. */
  lemma {:induction false} WalkMembersFlatten(ms: seq<Member>, path: string, depth: nat, query: string,
                                              caseSensitive: bool)
    requires |query| > 0
    ensures WalkMembers(ms, path, depth, query, caseSensitive)
            == Flatten(MemberGroups(ms, path, depth, query, caseSensitive))
  {
    if |ms| > 0 {
      var g := MemberGroups(ms, path, depth, query, caseSensitive);
      WalkMembersCons(ms, path, depth, query, caseSensitive);
      WalkMembersFlatten(ms[1..], path, depth, query, caseSensitive);
      MemberGroupsTail(ms, path, depth, query, caseSensitive);
      assert Flatten(g) == g[0] + Flatten(g[1..]);
    }
  }

  lemma {:induction false} InWalkMembers(ms: seq<Member>, j: int, path: string, depth: nat, query: string,
                                         caseSensitive: bool, x: StructHit)
    requires |query| > 0 && 0 <= j < |ms| && x in MemberHits(ms[j], path, depth, query, caseSensitive)
    ensures x in WalkMembers(ms, path, depth, query, caseSensitive)
  {
    WalkMembersCons(ms, path, depth, query, caseSensitive);
    if j > 0 {
      assert ms[1..][j - 1] == ms[j];
      InWalkMembers(ms[1..], j - 1, path, depth, query, caseSensitive, x);
    }
  }

  /**
   * A property whose key contains the query yields a 'key' result at
   * position 0 spanning the key, at path `parent.key` (or `key` at the root).
   */
  lemma KeyHitReported(ms: seq<Member>, j: int, path: string, depth: nat, query: string, caseSensitive: bool)
    requires |query| > 0 && 0 <= j < |ms| && depth <= MaxDepth
    requires Includes(Fold(ms[j].key, caseSensitive), Fold(query, caseSensitive))
    ensures StructHit(0, |ms[j].key|, ms[j].key, KeyPath(path, ms[j].key), KeyHit,
                      "Property name: \"" + ms[j].key + "\"")
            in Walk(JObject(ms), path, depth, query, caseSensitive)
  {
    var m := ms[j];
    var x := StructHit(0, |m.key|, m.key, KeyPath(path, m.key), KeyHit, "Property name: \"" + m.key + "\"");
    assert KeyHits(m.key, KeyPath(path, m.key), query, caseSensitive) == [x];
    PartsInMemberHits(m, path, depth, query, caseSensitive, x);
    MemberHitInObject(ms, j, path, depth, query, caseSensitive, x);
  }

  /** A key or own-value result of a property is among the property's results. */
  lemma PartsInMemberHits(m: Member, path: string, depth: nat, query: string, caseSensitive: bool, x: StructHit)
    requires |query| > 0
    requires x in KeyHits(m.key, KeyPath(path, m.key), query, caseSensitive)
             || x in PropertyValueHits(m.key, m.value, KeyPath(path, m.key), query, caseSensitive)
    ensures x in MemberHits(m, path, depth, query, caseSensitive)
  {
    var kp := KeyPath(path, m.key);
    var n := if IsContainer(m.value) then Walk(m.value, kp, depth + 1, query, caseSensitive) else [];
    assert MemberHits(m, path, depth, query, caseSensitive)
           == KeyHits(m.key, kp, query, caseSensitive) + PropertyValueHits(m.key, m.value, kp, query, caseSensitive) + n;
  }

  /** Within the bound, an object's walk is the walk of its properties. */
  lemma WalkObject(ms: seq<Member>, path: string, depth: nat, query: string, caseSensitive: bool)
    requires |query| > 0 && depth <= MaxDepth
    ensures Walk(JObject(ms), path, depth, query, caseSensitive) == WalkMembers(ms, path, depth, query, caseSensitive)
  {
  }

  /** A result of one property is a result of its object's walk. */
  lemma MemberHitInObject(ms: seq<Member>, k: int, path: string, depth: nat, query: string, caseSensitive: bool,
                          x: StructHit)
    requires |query| > 0 && 0 <= k < |ms| && depth <= MaxDepth
    requires x in MemberHits(ms[k], path, depth, query, caseSensitive)
    ensures x in Walk(JObject(ms), path, depth, query, caseSensitive)
  {
    InWalkMembers(ms, k, path, depth, query, caseSensitive, x);
    WalkObject(ms, path, depth, query, caseSensitive);
  }

  /** A number property whose text contains the query yields exactly one value result at position 0. */
  lemma NumberPropertyHit(key: string, t: string, path: string, depth: nat, query: string, caseSensitive: bool)
    requires |query| > 0
    requires !Includes(Fold(key, caseSensitive), Fold(query, caseSensitive))
    requires Includes(Fold(t, caseSensitive), Fold(query, caseSensitive))
    ensures MemberHits(Member(key, JNumber(t)), path, depth, query, caseSensitive)
            == [StructHit(0, |t|, t, KeyPath(path, key), ValueHit, "Value of \"" + key + "\": " + t)]
  {
  }

  /** Numbers, booleans and nulls that are array elements contribute nothing. */
  lemma {:induction false} ScalarItemsIgnored(items: seq<Json>, start: nat, path: string, depth: nat,
                                              query: string, caseSensitive: bool)
    requires |query| > 0
    requires forall i | 0 <= i < |items| :: items[i].JNumber? || items[i].JBool? || items[i].JNull?
    ensures WalkItems(items, start, path, depth, query, caseSensitive) == []
  {
    if |items| > 0 {
      ScalarItemsIgnored(items[1..], start + 1, path, depth, query, caseSensitive);
    }
  }

  // ---------------------------------------------------------------------
  // The depth bound, over any tree
  // ---------------------------------------------------------------------

  /** One step down a tree: the `i`-th array element, or the value of the `k`-th property. */
  datatype Step = Item(i: nat) | Prop(k: nat)

  /** A node of a tree with the path text the walk gives it. */
  datatype Place = Place(node: Json, at: string)

  /**
   * The node reached from `v` by `steps`, with the path text the walk
   * gives it when `v` sits at `path`; `None` when a step does not exist.
   */
  function Follow(v: Json, path: string, steps: seq<Step>): Option<Place>
    decreases |steps|
  {
    if |steps| == 0 then Some(Place(v, path))
    else match steps[0]
      case Item(i) =>
        if v.JArray? && i < |v.items| then Follow(v.items[i], IndexPath(path, i), steps[1..]) else None
      case Prop(k) =>
        if v.JObject? && k < |v.members| then
          Follow(v.members[k].value, KeyPath(path, v.members[k].key), steps[1..])
        else None
  }

  /**
   * The depth at which the walk, started at `depth`, inspects a string
   * reached by `steps`: an array element is one level below its array,
   * while a property's string value is read with its object's key.
   */
  function VisitDepth(steps: seq<Step>, depth: nat): nat {
    if |steps| > 0 && steps[|steps| - 1].Prop? then depth + |steps| - 1 else depth + |steps|
  }

  /** `v`, started at `depth`, with every node the walk would enter beyond the bound replaced by null. */
  function Prune(v: Json, depth: nat): Json
    decreases v, 1
  {
    if depth > MaxDepth then JNull
    else match v
      case JArray(items) => JArray(PruneItems(items, depth + 1))
      case JObject(ms) => JObject(PruneMembers(ms, depth))
      case _ => v
  }

  function PruneItems(items: seq<Json>, depth: nat): (r: seq<Json>)
    ensures |r| == |items|
    decreases items, 0
  {
    if |items| == 0 then [] else [Prune(items[0], depth)] + PruneItems(items[1..], depth)
  }

  function PruneMembers(ms: seq<Member>, depth: nat): (r: seq<Member>)
    ensures |r| == |ms|
    decreases ms, 0
  {
    if |ms| == 0 then [] else [PruneMember(ms[0], depth)] + PruneMembers(ms[1..], depth)
  }

  /** A property keeps its key and its scalar value; a nested value is pruned one level deeper. */
  function PruneMember(m: Member, depth: nat): Member
    decreases m, 0
  {
    Member(m.key, if IsContainer(m.value) then Prune(m.value, depth + 1) else m.value)
  }

  lemma {:induction false} WalkPrune(v: Json, path: string, depth: nat, query: string, caseSensitive: bool)
    requires |query| > 0
    ensures Walk(Prune(v, depth), path, depth, query, caseSensitive) == Walk(v, path, depth, query, caseSensitive)
    decreases v, 1
  {
    if depth <= MaxDepth {
      match v
      case JArray(items) => WalkItemsPrune(items, 0, path, depth, query, caseSensitive);
      case JObject(ms) => WalkMembersPrune(ms, path, depth, query, caseSensitive);
      case _ =>
    }
  }

  lemma {:induction false} WalkItemsPrune(items: seq<Json>, start: nat, path: string, depth: nat, query: string,
                                          caseSensitive: bool)
    requires |query| > 0
    ensures WalkItems(PruneItems(items, depth + 1), start, path, depth, query, caseSensitive)
            == WalkItems(items, start, path, depth, query, caseSensitive)
    decreases items, 0
  {
    if |items| > 0 {
      var p := PruneItems(items, depth + 1);
      assert p[0] == Prune(items[0], depth + 1) && p[1..] == PruneItems(items[1..], depth + 1);
      WalkPrune(items[0], IndexPath(path, start), depth + 1, query, caseSensitive);
      WalkItemsPrune(items[1..], start + 1, path, depth, query, caseSensitive);
    }
  }

  lemma {:induction false} WalkMembersPrune(ms: seq<Member>, path: string, depth: nat, query: string,
                                            caseSensitive: bool)
    requires |query| > 0
    ensures WalkMembers(PruneMembers(ms, depth), path, depth, query, caseSensitive)
            == WalkMembers(ms, path, depth, query, caseSensitive)
    decreases ms, 0
  {
    if |ms| > 0 {
      var p := PruneMembers(ms, depth);
      assert p[0] == PruneMember(ms[0], depth) && p[1..] == PruneMembers(ms[1..], depth);
      MemberHitsPrune(ms[0], path, depth, query, caseSensitive);
      WalkMembersPrune(ms[1..], path, depth, query, caseSensitive);
      WalkMembersCons(ms, path, depth, query, caseSensitive);
      WalkMembersCons(p, path, depth, query, caseSensitive);
    }
  }

  lemma {:induction false} MemberHitsPrune(m: Member, path: string, depth: nat, query: string, caseSensitive: bool)
    requires |query| > 0
    ensures MemberHits(PruneMember(m, depth), path, depth, query, caseSensitive)
            == MemberHits(m, path, depth, query, caseSensitive)
    decreases m, 0
  {
    if IsContainer(m.value) {
      WalkPrune(m.value, KeyPath(path, m.key), depth + 1, query, caseSensitive);
    }
  }

  /** One step of `Follow` that succeeds, and the visit depth one level down. */
  lemma FollowStep(v: Json, path: string, steps: seq<Step>, depth: nat)
    requires |steps| > 0 && Follow(v, path, steps).Some?
    ensures steps[0].Item? ==>
              && v.JArray? && steps[0].i < |v.items|
              && Follow(v, path, steps) == Follow(v.items[steps[0].i], IndexPath(path, steps[0].i), steps[1..])
    ensures steps[0].Prop? ==>
              && v.JObject? && steps[0].k < |v.members|
              && Follow(v, path, steps)
                 == Follow(v.members[steps[0].k].value, KeyPath(path, v.members[steps[0].k].key), steps[1..])
              && (|steps| > 1 ==> IsContainer(v.members[steps[0].k].value))
    ensures |steps| > 1 || steps[0].Item? ==> VisitDepth(steps[1..], depth + 1) == VisitDepth(steps, depth)
  {
    var rest := steps[1..];
    assert |rest| > 0 ==> rest[|rest| - 1] == steps[|steps| - 1];
    if steps[0].Prop? && |rest| > 0 && !IsContainer(v.members[steps[0].k].value) {
      FollowScalar(v.members[steps[0].k].value, KeyPath(path, v.members[steps[0].k].key), rest);
    }
  }

  /** In the pruned tree, the steps to a string beyond the bound reach nothing, or null. */
  lemma {:induction false} FollowPruned(v: Json, path: string, steps: seq<Step>, depth: nat)
    requires var f := Follow(v, path, steps); f.Some? && f.value.node.JString?
    requires VisitDepth(steps, depth) > MaxDepth
    ensures var f := Follow(Prune(v, depth), path, steps); f.None? || f.value.node == JNull
    decreases |steps|, 1
  {
    if depth > MaxDepth {
      FollowNull(path, steps);
    } else if steps[0].Item? {
      FollowPrunedItem(v, path, steps, depth);
    } else if |steps| > 1 {
      FollowPrunedProp(v, path, steps, depth);
    }
  }

  /** Null has no children. */
  lemma FollowNull(path: string, steps: seq<Step>)
    ensures var f := Follow(JNull, path, steps); f.None? || f.value.node == JNull
  {
  }

  lemma {:induction false} FollowPrunedItem(v: Json, path: string, steps: seq<Step>, depth: nat)
    requires depth <= MaxDepth && |steps| > 0 && steps[0].Item?
    requires var f := Follow(v, path, steps); f.Some? && f.value.node.JString?
    requires VisitDepth(steps, depth) > MaxDepth
    ensures var f := Follow(Prune(v, depth), path, steps); f.None? || f.value.node == JNull
    decreases |steps|, 0
  {
    FollowStep(v, path, steps, depth);
    PrunedItemStep(v.items, path, steps, depth);
    FollowPruned(v.items[steps[0].i], IndexPath(path, steps[0].i), steps[1..], depth + 1);
  }

  lemma {:induction false} FollowPrunedProp(v: Json, path: string, steps: seq<Step>, depth: nat)
    requires depth <= MaxDepth && |steps| > 1 && steps[0].Prop?
    requires var f := Follow(v, path, steps); f.Some? && f.value.node.JString?
    requires VisitDepth(steps, depth) > MaxDepth
    ensures var f := Follow(Prune(v, depth), path, steps); f.None? || f.value.node == JNull
    decreases |steps|, 0
  {
    FollowStep(v, path, steps, depth);
    var m := v.members[steps[0].k];
    PrunedPropStep(v.members, path, steps, depth);
    FollowPruned(m.value, KeyPath(path, m.key), steps[1..], depth + 1);
  }

  /** A step into an array element of the pruned tree lands on the pruned element. */
  lemma PrunedItemStep(items: seq<Json>, path: string, steps: seq<Step>, depth: nat)
    requires depth <= MaxDepth && |steps| > 0 && steps[0].Item? && steps[0].i < |items|
    ensures Follow(Prune(JArray(items), depth), path, steps)
            == Follow(Prune(items[steps[0].i], depth + 1), IndexPath(path, steps[0].i), steps[1..])
  {
    PruneItemsAt(items, depth + 1, steps[0].i);
  }

  /** A step into a nested property value of the pruned tree lands on the pruned value. */
  lemma PrunedPropStep(ms: seq<Member>, path: string, steps: seq<Step>, depth: nat)
    requires depth <= MaxDepth && |steps| > 0 && steps[0].Prop? && steps[0].k < |ms|
    requires IsContainer(ms[steps[0].k].value)
    ensures Follow(Prune(JObject(ms), depth), path, steps)
            == Follow(Prune(ms[steps[0].k].value, depth + 1), KeyPath(path, ms[steps[0].k].key), steps[1..])
  {
    PruneMembersAt(ms, depth, steps[0].k);
  }

  lemma PruneItemsAt(items: seq<Json>, depth: nat, i: nat)
    requires i < |items|
    ensures PruneItems(items, depth)[i] == Prune(items[i], depth)
  {
    if i > 0 {
      PruneItemsAt(items[1..], depth, i - 1);
    }
  }

  lemma PruneMembersAt(ms: seq<Member>, depth: nat, k: nat)
    requires k < |ms|
    ensures PruneMembers(ms, depth)[k] == PruneMember(ms[k], depth)
  {
    if k > 0 {
      PruneMembersAt(ms[1..], depth, k - 1);
    }
  }

  /** A scalar has no children: any step out of it fails. */
  lemma FollowScalar(v: Json, path: string, steps: seq<Step>)
    requires !IsContainer(v) && |steps| > 0
    ensures Follow(v, path, steps).None?
  {
  }

  /**
   * Nodes beyond the depth bound are not visited: the walk of any tree
   * equals the walk of the tree with those nodes cut to null, and a string
   * whose visit depth exceeds the bound is among the nodes cut.
   */
  lemma DeepStringIgnored(v: Json, path: string, steps: seq<Step>, depth: nat, query: string, caseSensitive: bool)
    requires |query| > 0
    requires var f := Follow(v, path, steps); f.Some? && f.value.node.JString?
    requires VisitDepth(steps, depth) > MaxDepth
    ensures Walk(Prune(v, depth), path, depth, query, caseSensitive) == Walk(v, path, depth, query, caseSensitive)
    ensures var f := Follow(Prune(v, depth), path, steps); f.None? || f.value.node == JNull
  {
    WalkPrune(v, path, depth, query, caseSensitive);
    FollowPruned(v, path, steps, depth);
  }

  lemma {:induction false} InWalkItems(items: seq<Json>, start: nat, i: nat, path: string, depth: nat, query: string,
                                       caseSensitive: bool, x: StructHit)
    requires |query| > 0 && i < |items|
    requires x in Walk(items[i], IndexPath(path, start + i), depth + 1, query, caseSensitive)
    ensures x in WalkItems(items, start, path, depth, query, caseSensitive)
  {
    if i > 0 {
      InWalkItems(items[1..], start + 1, i - 1, path, depth, query, caseSensitive, x);
    }
  }

  /** A result of an array element's walk is a result of the array's walk. */
  lemma ItemHitLifts(items: seq<Json>, i: nat, path: string, depth: nat, query: string, caseSensitive: bool,
                     x: StructHit)
    requires |query| > 0 && i < |items| && depth <= MaxDepth
    requires x in Walk(items[i], IndexPath(path, i), depth + 1, query, caseSensitive)
    ensures x in Walk(JArray(items), path, depth, query, caseSensitive)
  {
    InWalkItems(items, 0, i, path, depth, query, caseSensitive, x);
  }

  /** A result of a nested property value's walk is a result of the object's walk. */
  lemma MemberHitLifts(ms: seq<Member>, k: nat, path: string, depth: nat, query: string, caseSensitive: bool,
                       x: StructHit)
    requires |query| > 0 && k < |ms| && depth <= MaxDepth && IsContainer(ms[k].value)
    requires x in Walk(ms[k].value, KeyPath(path, ms[k].key), depth + 1, query, caseSensitive)
    ensures x in Walk(JObject(ms), path, depth, query, caseSensitive)
  {
    var m := ms[k];
    var kp := KeyPath(path, m.key);
    assert MemberHits(m, path, depth, query, caseSensitive)
           == KeyHits(m.key, kp, query, caseSensitive) + PropertyValueHits(m.key, m.value, kp, query, caseSensitive)
              + Walk(m.value, kp, depth + 1, query, caseSensitive);
    MemberHitInObject(ms, k, path, depth, query, caseSensitive, x);
  }

  /** A string at the root of the walk is searched. */
  lemma RootStringHit(s: string, path: string, depth: nat, query: string, caseSensitive: bool, j: int)
    requires |query| > 0 && depth <= MaxDepth
    requires OccursAt(Fold(s, caseSensitive), Fold(query, caseSensitive), j)
    ensures exists x | x in Walk(JString(s), path, depth, query, caseSensitive) ::
              x.kind == ValueHit && x.position == j && x.path == path
  {
    var x := StringHitAt(s, query, caseSensitive, path, TextContext(s), j);
    assert Walk(JString(s), path, depth, query, caseSensitive) == StringHits(s, query, caseSensitive, path, TextContext(s));
    HitInHits(Walk(JString(s), path, depth, query, caseSensitive), x, j, path);
  }

  /** A 'value' result in a list witnesses the existential the walk lemmas state. */
  lemma HitInHits(w: seq<StructHit>, x: StructHit, j: int, path: string)
    requires x in w && x.position == j && x.path == path && x.kind == ValueHit
    ensures exists y | y in w :: y.kind == ValueHit && y.position == j && y.path == path
  {
  }

  /** The results of a string property include its value's results. */
  lemma StringMemberHits(m: Member, path: string, depth: nat, query: string, caseSensitive: bool, s: string,
                         x: StructHit)
    requires |query| > 0 && m.value == JString(s)
    requires x in StringHits(s, query, caseSensitive, KeyPath(path, m.key), ValueContext(m.key, s))
    ensures x in MemberHits(m, path, depth, query, caseSensitive)
  {
    assert PropertyValueHits(m.key, m.value, KeyPath(path, m.key), query, caseSensitive)
           == StringHits(s, query, caseSensitive, KeyPath(path, m.key), ValueContext(m.key, s));
    PartsInMemberHits(m, path, depth, query, caseSensitive, x);
  }

  /** A string property value is searched with its object. */
  lemma MemberStringHit(ms: seq<Member>, k: nat, path: string, depth: nat, query: string, caseSensitive: bool,
                        s: string, j: int)
    requires |query| > 0 && k < |ms| && depth <= MaxDepth && ms[k].value == JString(s)
    requires OccursAt(Fold(s, caseSensitive), Fold(query, caseSensitive), j)
    ensures exists x | x in Walk(JObject(ms), path, depth, query, caseSensitive) ::
              x.kind == ValueHit && x.position == j && x.path == KeyPath(path, ms[k].key)
  {
    var m := ms[k];
    var kp := KeyPath(path, m.key);
    var x := StringHitAt(s, query, caseSensitive, kp, ValueContext(m.key, s), j);
    StringMemberHits(m, path, depth, query, caseSensitive, s, x);
    MemberHitInObject(ms, k, path, depth, query, caseSensitive, x);
    HitInHits(Walk(JObject(ms), path, depth, query, caseSensitive), x, j, kp);
  }

  /**
   * A string reached anywhere in the tree at a visit depth within the
   * bound is reported: every occurrence of the query in it gives a 'value'
   * result at that position, carrying the path the steps spell out.
   */
  lemma {:induction false} ShallowStringFound(v: Json, path: string, steps: seq<Step>, depth: nat, query: string,
                                              caseSensitive: bool, s: string, j: int)
    requires |query| > 0
    requires var f := Follow(v, path, steps); f.Some? && f.value.node == JString(s)
    requires VisitDepth(steps, depth) <= MaxDepth
    requires OccursAt(Fold(s, caseSensitive), Fold(query, caseSensitive), j)
    ensures exists x | x in Walk(v, path, depth, query, caseSensitive) ::
              x.kind == ValueHit && x.position == j && x.path == Follow(v, path, steps).value.at
    decreases |steps|, 1
  {
    if |steps| == 0 {
      RootStringHit(s, path, depth, query, caseSensitive, j);
    } else if steps[0].Item? {
      ShallowItem(v, path, steps, depth, query, caseSensitive, s, j);
    } else if |steps| == 1 {
      FollowStep(v, path, steps, depth);
      MemberStringHit(v.members, steps[0].k, path, depth, query, caseSensitive, s, j);
    } else {
      ShallowProp(v, path, steps, depth, query, caseSensitive, s, j);
    }
  }

  lemma {:induction false} ShallowItem(v: Json, path: string, steps: seq<Step>, depth: nat, query: string,
                                       caseSensitive: bool, s: string, j: int)
    requires |query| > 0 && |steps| > 0 && steps[0].Item?
    requires var f := Follow(v, path, steps); f.Some? && f.value.node == JString(s)
    requires VisitDepth(steps, depth) <= MaxDepth
    requires OccursAt(Fold(s, caseSensitive), Fold(query, caseSensitive), j)
    ensures exists x | x in Walk(v, path, depth, query, caseSensitive) ::
              x.kind == ValueHit && x.position == j && x.path == Follow(v, path, steps).value.at
    decreases |steps|, 0
  {
    FollowStep(v, path, steps, depth);
    var i := steps[0].i;
    var c := v.items[i];
    var cp := IndexPath(path, i);
    var target := Follow(v, path, steps).value.at;
    assert Follow(c, cp, steps[1..]).value.at == target;
    ShallowStringFound(c, cp, steps[1..], depth + 1, query, caseSensitive, s, j);
    var x :| x in Walk(c, cp, depth + 1, query, caseSensitive)
             && x.kind == ValueHit && x.position == j && x.path == target;
    ItemHitLifts(v.items, i, path, depth, query, caseSensitive, x);
    assert v == JArray(v.items);
    HitInHits(Walk(v, path, depth, query, caseSensitive), x, j, target);
  }

  lemma {:induction false} ShallowProp(v: Json, path: string, steps: seq<Step>, depth: nat, query: string,
                                       caseSensitive: bool, s: string, j: int)
    requires |query| > 0 && |steps| > 1 && steps[0].Prop?
    requires var f := Follow(v, path, steps); f.Some? && f.value.node == JString(s)
    requires VisitDepth(steps, depth) <= MaxDepth
    requires OccursAt(Fold(s, caseSensitive), Fold(query, caseSensitive), j)
    ensures exists x | x in Walk(v, path, depth, query, caseSensitive) ::
              x.kind == ValueHit && x.position == j && x.path == Follow(v, path, steps).value.at
    decreases |steps|, 0
  {
    FollowStep(v, path, steps, depth);
    var k := steps[0].k;
    var c := v.members[k].value;
    var cp := KeyPath(path, v.members[k].key);
    var target := Follow(v, path, steps).value.at;
    assert Follow(c, cp, steps[1..]).value.at == target;
    ShallowStringFound(c, cp, steps[1..], depth + 1, query, caseSensitive, s, j);
    PropHitExists(v.members, k, path, depth, query, caseSensitive, j, target);
    assert v == JObject(v.members);
  }

  /** A 'value' result found in a nested property value is found in the object. */
  lemma PropHitExists(ms: seq<Member>, k: nat, path: string, depth: nat, query: string, caseSensitive: bool,
                      j: int, target: string)
    requires |query| > 0 && k < |ms| && depth <= MaxDepth && IsContainer(ms[k].value)
    requires exists x | x in Walk(ms[k].value, KeyPath(path, ms[k].key), depth + 1, query, caseSensitive) ::
               x.kind == ValueHit && x.position == j && x.path == target
    ensures exists x | x in Walk(JObject(ms), path, depth, query, caseSensitive) ::
              x.kind == ValueHit && x.position == j && x.path == target
  {
    var x :| x in Walk(ms[k].value, KeyPath(path, ms[k].key), depth + 1, query, caseSensitive)
             && x.kind == ValueHit && x.position == j && x.path == target;
    MemberHitLifts(ms, k, path, depth, query, caseSensitive, x);
    HitInHits(Walk(JObject(ms), path, depth, query, caseSensitive), x, j, target);
  }
}
