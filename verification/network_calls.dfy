/**
 * The call pipeline of the panel: response-code patterns, per-rule
 * matching, the include / exclude / free-text stages that produce the
 * filtered list, the edits of the rule list, and the construction of a
 * record from a live "request finished" event.
 */
module NetworkCalls {
  import opened Wrappers
  import opened Strings
  import opened Seqs
  import opened Calls

  // ---------------------------------------------------------------------
  // Response-code patterns
  // ---------------------------------------------------------------------

  /**
   * One pattern: "dXX" is a status class (three decimal digits starting
   * with d); anything else must equal the decimal status.
   */
  predicate PatternMatches(status: nat, pattern: string) {
    var statusStr := NatToString(status);
    if EndsWith(pattern, "XX") then
      StartsWith(statusStr, [pattern[0]]) && |statusStr| == 3
    else
      statusStr == pattern
  }

  /** `patterns.some(...)`. */
  predicate MatchesResponseCode(status: nat, patterns: seq<string>) {
    exists i | 0 <= i < |patterns| :: PatternMatches(status, patterns[i])
  }

  /** The numeric value of a decimal digit character. */
  function DigitValue(c: char): int {
    c as int - '0' as int
  }

  /**
   * A class pattern "dXX" covers exactly the statuses 100·d .. 100·d + 99
   * for a digit d in 1..9, and nothing for any other first character.
   */
  lemma ClassPatternRange(status: nat, pattern: string)
    requires EndsWith(pattern, "XX")
    ensures PatternMatches(status, pattern) <==>
              '1' <= pattern[0] <= '9'
              && 100 * DigitValue(pattern[0]) <= status <= 100 * DigitValue(pattern[0]) + 99
  {
    var str := NatToString(status);
    NatToStringLength3(status);
    assert PatternMatches(status, pattern) <==> |str| == 3 && str[0] == pattern[0] by {
      if |str| >= 1 {
        assert (str[..1] == [pattern[0]]) <==> str[0] == pattern[0];
      }
    }
    var d := DigitValue(pattern[0]);
    if 100 <= status <= 999 {
      NatToStringThreeDigits(status);
      assert str[0] == DigitChar(status / 100);
      if 100 * d <= status <= 100 * d + 99 {
        HundredsDigit(status, d);
      }
    } else if '1' <= pattern[0] <= '9' {
      assert !(100 * d <= status <= 100 * d + 99);
    }
  }

  lemma HundredsDigit(n: nat, d: int)
    requires 100 * d <= n <= 100 * d + 99
    ensures n / 100 == d
  {
  }

  /** The decimal rendering is injective. */
  lemma {:induction false} NatToStringInjective(a: nat, b: nat)
    requires NatToString(a) == NatToString(b)
    ensures a == b
  {
    var s := NatToString(a);
    if a >= 10 && b >= 10 {
      assert NatToString(a / 10) == s[..|s| - 1] == NatToString(b / 10);
      NatToStringInjective(a / 10, b / 10);
      assert DigitChar(a % 10) == s[|s| - 1] == DigitChar(b % 10);
    } else if a < 10 && b < 10 {
      assert s[0] == DigitChar(a) && s[0] == DigitChar(b);
    }
  }

  /** An exact pattern (the decimal text of some code) matches that code and no other. */
  lemma ExactPatternMatchesOnly(status: nat, code: nat)
    ensures PatternMatches(status, NatToString(code)) <==> status == code
  {
    var p := NatToString(code);
    assert !EndsWith(p, "XX") by {
      if |p| >= 2 {
        assert '0' <= p[|p| - 1] <= '9';
        assert p[|p| - 2..][1] == p[|p| - 1];
      }
    }
    if NatToString(status) == p {
      NatToStringInjective(status, code);
    }
  }

  // ---------------------------------------------------------------------
  // Rule matching: `matches = matches && ...` over the criteria a rule sets
  // ---------------------------------------------------------------------

  /** One criterion a rule may set. */
  datatype Criterion =
    | MethodIs(m: string)
    | UrlContains(pattern: string)
    | IsErrorCall
    | CodeIn(patterns: seq<string>)

  /** The call is an error call: an error text, or a status of 400 or more. */
  predicate ErrorCall(call: CallRecord) {
    Truthy(call.error) || IsHttpError(call.status)
  }

  predicate Holds(c: Criterion, call: CallRecord) {
    match c
    case MethodIs(m) => call.httpMethod == m
    case UrlContains(p) => Includes(Lower(call.url), Lower(p))
    case IsErrorCall => ErrorCall(call)
    case CodeIn(ps) => MatchesResponseCode(call.status, ps)
  }

  predicate MethodSet(r: FilterRule) { Truthy(r.httpMethod) }
  predicate UrlSet(r: FilterRule) { Truthy(r.urlPattern) }
  predicate ErrorsSet(r: FilterRule) { r.includeErrors == Some(true) }
  predicate CodesSet(r: FilterRule) {
    r.responseCodeFilter.Some? && |r.responseCodeFilter.value| > 0
  }

  /** The criteria a rule sets, in the order the source tests them. */
  function Criteria(r: FilterRule): seq<Criterion> {
    (if MethodSet(r) then [MethodIs(r.httpMethod.value)] else [])
    + (if UrlSet(r) then [UrlContains(r.urlPattern.value)] else [])
    + (if ErrorsSet(r) then [IsErrorCall] else [])
    + (if CodesSet(r) then [CodeIn(r.responseCodeFilter.value)] else [])
  }

  /** The accumulator `matches`, starting from `acc`, after the given criteria. */
  function Fold(acc: bool, cs: seq<Criterion>, call: CallRecord): bool {
    if |cs| == 0 then acc else Fold(acc && Holds(cs[0], call), cs[1..], call)
  }

  predicate RuleMatches(r: FilterRule, call: CallRecord) {
    Fold(true, Criteria(r), call)
  }

  lemma {:induction false} FoldIsConjunction(acc: bool, cs: seq<Criterion>, call: CallRecord)
    ensures Fold(acc, cs, call) <==> acc && forall i | 0 <= i < |cs| :: Holds(cs[i], call)
  {
    if |cs| > 0 {
      FoldIsConjunction(acc && Holds(cs[0], call), cs[1..], call);
      assert forall i | 1 <= i < |cs| :: cs[i] == cs[1..][i - 1];
    }
  }

  /** A rule matches iff every criterion it sets holds. */
  lemma RuleMatchesIff(r: FilterRule, call: CallRecord)
    ensures RuleMatches(r, call) <==>
              (MethodSet(r) ==> call.httpMethod == r.httpMethod.value)
              && (UrlSet(r) ==> Includes(Lower(call.url), Lower(r.urlPattern.value)))
              && (ErrorsSet(r) ==> ErrorCall(call))
              && (CodesSet(r) ==> MatchesResponseCode(call.status, r.responseCodeFilter.value))
  {
    var cs := Criteria(r);
    FoldIsConjunction(true, cs, call);
    var k := 0;
    if MethodSet(r) {
      assert cs[k] == MethodIs(r.httpMethod.value);
      k := k + 1;
    }
    if UrlSet(r) {
      assert cs[k] == UrlContains(r.urlPattern.value);
      k := k + 1;
    }
    if ErrorsSet(r) {
      assert cs[k] == IsErrorCall;
      k := k + 1;
    }
    if CodesSet(r) {
      assert cs[k] == CodeIn(r.responseCodeFilter.value);
      k := k + 1;
    }
    assert |cs| == k;
  }

  /** A rule that sets no criterion matches every call. */
  lemma EmptyRuleMatchesAll(r: FilterRule, call: CallRecord)
    requires !MethodSet(r) && !UrlSet(r) && !ErrorsSet(r) && !CodesSet(r)
    ensures RuleMatches(r, call)
  {
    RuleMatchesIff(r, call);
  }

  // ---------------------------------------------------------------------
  // The filtered list
  // ---------------------------------------------------------------------

  predicate IsExclude(r: FilterRule) { r.isExclude == Some(true) }

  const ActiveTest: FilterRule -> bool := (r: FilterRule) => r.isActive
  const IncludeKindTest: FilterRule -> bool := (r: FilterRule) => !IsExclude(r)
  const ExcludeKindTest: FilterRule -> bool := (r: FilterRule) => IsExclude(r)

  function ActiveRules(rules: seq<FilterRule>): seq<FilterRule> {
    Filter(rules, ActiveTest)
  }

  function IncludeRules(rules: seq<FilterRule>): seq<FilterRule> {
    Filter(ActiveRules(rules), IncludeKindTest)
  }

  function ExcludeRules(rules: seq<FilterRule>): seq<FilterRule> {
    Filter(ActiveRules(rules), ExcludeKindTest)
  }

  /** `rules.some(rule => RuleMatches(rule, call))`. */
  predicate AnyRuleMatches(rules: seq<FilterRule>, call: CallRecord) {
    exists i | 0 <= i < |rules| :: RuleMatches(rules[i], call)
  }

  /** The include-stage test: no include rules, or one of them matches. */
  function IncludeTest(includes: seq<FilterRule>): CallRecord -> bool {
    (c: CallRecord) => |includes| == 0 || AnyRuleMatches(includes, c)
  }

  /** The exclude-stage test: none of the exclude rules matches. */
  function ExcludeTest(excludes: seq<FilterRule>): CallRecord -> bool {
    (c: CallRecord) => !AnyRuleMatches(excludes, c)
  }

  function IncludeStage(calls: seq<CallRecord>, includes: seq<FilterRule>): seq<CallRecord> {
    if |includes| > 0 then Filter(calls, IncludeTest(includes)) else calls
  }

  function ExcludeStage(calls: seq<CallRecord>, excludes: seq<FilterRule>): seq<CallRecord> {
    if |excludes| > 0 then Filter(calls, ExcludeTest(excludes)) else calls
  }

  /** `query.toLowerCase().trim()`. */
  function NormalizedQuery(query: string): string {
    Trim(Lower(query))
  }

  /**
   * The free-text test for one call and a non-empty normalised query `q`.
   * `stringify` is `JSON.stringify` of the request headers.
   */
  predicate SearchHit(call: CallRecord, q: string, cfg: SearchConfig, stringify: Headers -> string) {
    || Includes(Lower(call.url), q)
    || (cfg.searchInErrors && call.error.Some? && Includes(Lower(call.error.value), q))
    || (cfg.searchInHeaders && Includes(Lower(stringify(call.requestHeaders)), q))
    || (cfg.searchInPayload && Truthy(call.requestBody) && Includes(Lower(call.requestBody.value), q))
    || (cfg.searchInResponse && Truthy(call.responseBody) && Includes(Lower(call.responseBody.value), q))
  }

  /** The search-stage test: an empty normalised query, or a hit. */
  function SearchTest(q: string, cfg: SearchConfig, stringify: Headers -> string): CallRecord -> bool {
    (c: CallRecord) => q == "" || SearchHit(c, q, cfg, stringify)
  }

  function SearchStage(calls: seq<CallRecord>, cfg: SearchConfig, stringify: Headers -> string): seq<CallRecord> {
    var q := NormalizedQuery(cfg.query);
    if q != "" then Filter(calls, SearchTest(q, cfg, stringify)) else calls
  }

  /** The `filteredCalls` memo: include stage, exclude stage, free-text stage. */
  function FilteredCalls(calls: seq<CallRecord>, rules: seq<FilterRule>, cfg: SearchConfig,
                         stringify: Headers -> string): seq<CallRecord>
  {
    SearchStage(ExcludeStage(IncludeStage(calls, IncludeRules(rules)), ExcludeRules(rules)), cfg, stringify)
  }

  /** The three stage tests, stated independently of the stage order. */
  predicate Survives(call: CallRecord, rules: seq<FilterRule>, cfg: SearchConfig, stringify: Headers -> string) {
    var includes := IncludeRules(rules);
    var q := NormalizedQuery(cfg.query);
    && (|includes| == 0 || AnyRuleMatches(includes, call))
    && !AnyRuleMatches(ExcludeRules(rules), call)
    && (q == "" || SearchHit(call, q, cfg, stringify))
  }

  function SurvivesTest(rules: seq<FilterRule>, cfg: SearchConfig, stringify: Headers -> string): CallRecord -> bool {
    (c: CallRecord) => Survives(c, rules, cfg, stringify)
  }

  /** A stage that is switched off is the identity, so each stage is a filter by its test. */
  lemma StagesAreFilters(calls: seq<CallRecord>, rules: seq<FilterRule>, cfg: SearchConfig,
                         stringify: Headers -> string)
    ensures IncludeStage(calls, IncludeRules(rules)) == Filter(calls, IncludeTest(IncludeRules(rules)))
    ensures ExcludeStage(calls, ExcludeRules(rules)) == Filter(calls, ExcludeTest(ExcludeRules(rules)))
    ensures SearchStage(calls, cfg, stringify)
            == Filter(calls, SearchTest(NormalizedQuery(cfg.query), cfg, stringify))
  {
    IncludeStageIsFilter(calls, IncludeRules(rules));
    ExcludeStageIsFilter(calls, ExcludeRules(rules));
    SearchStageIsFilter(calls, cfg, stringify);
  }

  lemma IncludeStageIsFilter(calls: seq<CallRecord>, includes: seq<FilterRule>)
    ensures IncludeStage(calls, includes) == Filter(calls, IncludeTest(includes))
  {
    if |includes| == 0 {
      FilterAll(calls, IncludeTest(includes));
    }
  }

  lemma ExcludeStageIsFilter(calls: seq<CallRecord>, excludes: seq<FilterRule>)
    ensures ExcludeStage(calls, excludes) == Filter(calls, ExcludeTest(excludes))
  {
    if |excludes| == 0 {
      FilterAll(calls, ExcludeTest(excludes));
    }
  }

  lemma SearchStageIsFilter(calls: seq<CallRecord>, cfg: SearchConfig, stringify: Headers -> string)
    ensures SearchStage(calls, cfg, stringify)
            == Filter(calls, SearchTest(NormalizedQuery(cfg.query), cfg, stringify))
  {
    if NormalizedQuery(cfg.query) == "" {
      FilterAll(calls, SearchTest(NormalizedQuery(cfg.query), cfg, stringify));
    }
  }

  /** The pipeline is one order-preserving filter by `Survives`. */
  lemma FilteredCallsIsFilter(calls: seq<CallRecord>, rules: seq<FilterRule>, cfg: SearchConfig,
                              stringify: Headers -> string)
    ensures FilteredCalls(calls, rules, cfg, stringify) == Filter(calls, SurvivesTest(rules, cfg, stringify))
  {
    var p1 := IncludeTest(IncludeRules(rules));
    var p2 := ExcludeTest(ExcludeRules(rules));
    var p3 := SearchTest(NormalizedQuery(cfg.query), cfg, stringify);
    var p12 := (c: CallRecord) => p1(c) && p2(c);
    IncludeStageIsFilter(calls, IncludeRules(rules));
    var s1 := Filter(calls, p1);
    ExcludeStageIsFilter(s1, ExcludeRules(rules));
    FilterFilter(calls, p1, p2, p12);
    var s2 := Filter(calls, p12);
    SearchStageIsFilter(s2, cfg, stringify);
    FilterFilter(calls, p12, p3, SurvivesTest(rules, cfg, stringify));
  }

  /** A call is in the output iff it is in the input and passes all three stages. */
  lemma FilteredCallsMembership(calls: seq<CallRecord>, rules: seq<FilterRule>, cfg: SearchConfig,
                                stringify: Headers -> string, call: CallRecord)
    ensures call in FilteredCalls(calls, rules, cfg, stringify)
            <==> call in calls && Survives(call, rules, cfg, stringify)
  {
    FilteredCallsIsFilter(calls, rules, cfg, stringify);
  }

  /** The output is an order-preserving subsequence of the input. */
  lemma FilteredCallsSubsequence(calls: seq<CallRecord>, rules: seq<FilterRule>, cfg: SearchConfig,
                                 stringify: Headers -> string)
    ensures IsSubsequence(FilteredCalls(calls, rules, cfg, stringify), calls)
  {
    FilteredCallsIsFilter(calls, rules, cfg, stringify);
    FilterIsSubsequence(calls, SurvivesTest(rules, cfg, stringify));
  }

  /** Re-running the same rules and query on the output returns it unchanged. */
  lemma FilteredCallsIdempotent(calls: seq<CallRecord>, rules: seq<FilterRule>, cfg: SearchConfig,
                                stringify: Headers -> string)
    ensures var once := FilteredCalls(calls, rules, cfg, stringify);
            FilteredCalls(once, rules, cfg, stringify) == once
  {
    var once := FilteredCalls(calls, rules, cfg, stringify);
    FilteredCallsIsFilter(calls, rules, cfg, stringify);
    FilteredCallsIsFilter(once, rules, cfg, stringify);
    FilterIdempotent(calls, SurvivesTest(rules, cfg, stringify));
  }

  /** A call that some active exclude rule matches never survives, whatever the include rules say. */
  lemma ExcludeDominates(calls: seq<CallRecord>, rules: seq<FilterRule>, cfg: SearchConfig,
                         stringify: Headers -> string, call: CallRecord, j: int)
    requires 0 <= j < |rules| && rules[j].isActive && IsExclude(rules[j]) && RuleMatches(rules[j], call)
    ensures call !in FilteredCalls(calls, rules, cfg, stringify)
  {
    var r := rules[j];
    assert r in ActiveRules(rules);
    assert r in ExcludeRules(rules);
    var k :| 0 <= k < |ExcludeRules(rules)| && ExcludeRules(rules)[k] == r;
    FilteredCallsMembership(calls, rules, cfg, stringify, call);
  }

  /**
   * With at least one active include rule, a call survives only if one of
   * them matches it (OR); a call some include rule matches survives unless
   * an exclude rule or the query removes it.
   */
  lemma IncludeRulesAreOred(calls: seq<CallRecord>, rules: seq<FilterRule>, cfg: SearchConfig,
                            stringify: Headers -> string, call: CallRecord)
    requires |IncludeRules(rules)| > 0
    ensures call in FilteredCalls(calls, rules, cfg, stringify) <==>
              && call in calls
              && (exists r | r in rules :: r.isActive && !IsExclude(r) && RuleMatches(r, call))
              && !AnyRuleMatches(ExcludeRules(rules), call)
              && (NormalizedQuery(cfg.query) == "" || SearchHit(call, NormalizedQuery(cfg.query), cfg, stringify))
  {
    FilteredCallsMembership(calls, rules, cfg, stringify, call);
    IncludeMatchIffSomeRule(rules, call);
  }

  /** Some include rule matches iff some active, non-exclude rule of the list matches. */
  lemma IncludeMatchIffSomeRule(rules: seq<FilterRule>, call: CallRecord)
    ensures AnyRuleMatches(IncludeRules(rules), call)
            <==> exists r | r in rules :: r.isActive && !IsExclude(r) && RuleMatches(r, call)
  {
    var includes := IncludeRules(rules);
    if exists r | r in rules :: r.isActive && !IsExclude(r) && RuleMatches(r, call) {
      var r :| r in rules && r.isActive && !IsExclude(r) && RuleMatches(r, call);
      assert r in ActiveRules(rules);
      assert r in includes;
      var k :| 0 <= k < |includes| && includes[k] == r;
    }
    if AnyRuleMatches(includes, call) {
      var i :| 0 <= i < |includes| && RuleMatches(includes[i], call);
      assert includes[i] in includes;
      assert includes[i] in ActiveRules(rules);
    }
  }

  /** Without active include rules the include stage passes every call. */
  lemma NoIncludeRulesPassAll(calls: seq<CallRecord>, rules: seq<FilterRule>)
    requires forall i | 0 <= i < |rules| :: !rules[i].isActive || IsExclude(rules[i])
    ensures IncludeStage(calls, IncludeRules(rules)) == calls
  {
    var active := ActiveRules(rules);
    forall i | 0 <= i < |active| ensures !IncludeKindTest(active[i]) {
      assert active[i] in rules;
    }
    FilterNone(active, IncludeKindTest);
  }

  /** Inactive rules take no part: dropping them leaves the output unchanged. */
  lemma InactiveRulesIgnored(calls: seq<CallRecord>, rules: seq<FilterRule>, cfg: SearchConfig,
                             stringify: Headers -> string)
    ensures FilteredCalls(calls, ActiveRules(rules), cfg, stringify) == FilteredCalls(calls, rules, cfg, stringify)
  {
    FilterIdempotent(rules, ActiveTest);
  }

  /** With no rules and a blank query every call is shown, in order. */
  lemma NoRulesBlankQueryShowsAll(calls: seq<CallRecord>, cfg: SearchConfig, stringify: Headers -> string)
    requires IsBlank(cfg.query)
    ensures FilteredCalls(calls, [], cfg, stringify) == calls
  {
    assert IsBlank(Lower(cfg.query)) by {
      forall i | 0 <= i < |cfg.query| ensures IsSpace(Lower(cfg.query)[i]) {
        assert IsSpace(cfg.query[i]);
      }
    }
    TrimEmptyIffBlank(Lower(cfg.query));
  }

  /** A call whose lower-cased URL contains the normalised query always passes the free-text stage. */
  lemma UrlHitSurvivesSearch(calls: seq<CallRecord>, cfg: SearchConfig, stringify: Headers -> string,
                             call: CallRecord)
    requires call in calls
    requires Includes(Lower(call.url), NormalizedQuery(cfg.query))
    ensures call in SearchStage(calls, cfg, stringify)
  {
  }

  /**
   * The free-text stage keeps a call exactly when the query is blank or the
   * call is a hit for the normalised query; a blank query keeps the list as it is.
   */
  lemma SearchStageMembership(calls: seq<CallRecord>, cfg: SearchConfig, stringify: Headers -> string,
                              call: CallRecord)
    ensures call in SearchStage(calls, cfg, stringify)
            <==> call in calls && (IsBlank(cfg.query) || SearchHit(call, NormalizedQuery(cfg.query), cfg, stringify))
    ensures IsBlank(cfg.query) ==> SearchStage(calls, cfg, stringify) == calls
  {
    LowerKeepsBlank(cfg.query);
    TrimEmptyIffBlank(Lower(cfg.query));
    SearchStageIsFilter(calls, cfg, stringify);
  }

  /** Lower-casing neither creates nor removes whitespace. */
  lemma LowerKeepsBlank(s: string)
    ensures IsBlank(Lower(s)) <==> IsBlank(s)
  {
    forall i | 0 <= i < |s| ensures IsSpace(Lower(s)[i]) <==> IsSpace(s[i]) {
    }
  }

  /** The settings `resetSearchConfig` restores. */
  const DefaultSearchConfig := SearchConfig("", true, true, true, true, false)

  // ---------------------------------------------------------------------
  // Edits of the rule list
  // ---------------------------------------------------------------------

  /** A rule as the form hands it over: everything but the id. */
  datatype RuleDraft = RuleDraft(
    name: string,
    httpMethod: Option<string>,
    urlPattern: Option<string>,
    includeHeaders: Option<bool>,
    includePayload: Option<bool>,
    includeResponse: Option<bool>,
    includeErrors: Option<bool>,
    responseCodeFilter: Option<seq<string>>,
    isActive: bool,
    isExclude: Option<bool>
  )

  /** `addFilter(draft)` with `Date.now().toString()` passed in as `id`. */
  function AddFilter(filters: seq<FilterRule>, draft: RuleDraft, id: string): (r: seq<FilterRule>)
    ensures |r| == |filters| + 1 && r[..|filters|] == filters
    ensures r[|filters|].id == id && r[|filters|].isActive
    ensures r[|filters|].name == draft.name && r[|filters|].httpMethod == draft.httpMethod
    ensures r[|filters|].urlPattern == draft.urlPattern && r[|filters|].isExclude == draft.isExclude
    ensures r[|filters|].responseCodeFilter == draft.responseCodeFilter
    ensures r[|filters|].includeErrors == draft.includeErrors
    ensures r[|filters|].includeHeaders == draft.includeHeaders
    ensures r[|filters|].includePayload == draft.includePayload
    ensures r[|filters|].includeResponse == draft.includeResponse
  {
    var rule := FilterRule(id, draft.name, draft.httpMethod, draft.urlPattern, draft.includeHeaders,
                           draft.includePayload, draft.includeResponse, draft.includeErrors,
                           draft.responseCodeFilter, true, draft.isExclude);
    filters + [rule]
  }

  /** A field of a `Partial<NetworkFilter>`: absent, or present with a value. */
  datatype Patch<T> = Keep | Put(v: T)

  function Apply<T>(cur: T, p: Patch<T>): T {
    match p
    case Keep => cur
    case Put(v) => v
  }

  datatype RulePatch = RulePatch(
    id: Patch<string>,
    name: Patch<string>,
    httpMethod: Patch<Option<string>>,
    urlPattern: Patch<Option<string>>,
    includeHeaders: Patch<Option<bool>>,
    includePayload: Patch<Option<bool>>,
    includeResponse: Patch<Option<bool>>,
    includeErrors: Patch<Option<bool>>,
    responseCodeFilter: Patch<Option<seq<string>>>,
    isActive: Patch<bool>,
    isExclude: Patch<Option<bool>>
  )

  const EmptyPatch := RulePatch(Keep, Keep, Keep, Keep, Keep, Keep, Keep, Keep, Keep, Keep, Keep)

  /** `{ ...rule, ...patch }`: present fields of the patch win. */
  function ApplyPatch(r: FilterRule, p: RulePatch): FilterRule {
    FilterRule(Apply(r.id, p.id), Apply(r.name, p.name), Apply(r.httpMethod, p.httpMethod),
               Apply(r.urlPattern, p.urlPattern), Apply(r.includeHeaders, p.includeHeaders),
               Apply(r.includePayload, p.includePayload), Apply(r.includeResponse, p.includeResponse),
               Apply(r.includeErrors, p.includeErrors), Apply(r.responseCodeFilter, p.responseCodeFilter),
               Apply(r.isActive, p.isActive), Apply(r.isExclude, p.isExclude))
  }

  lemma ApplyPatchEmpty(r: FilterRule)
    ensures ApplyPatch(r, EmptyPatch) == r
  {
  }

  /** Merging the same patch twice is merging it once. */
  lemma ApplyPatchIdempotent(r: FilterRule, p: RulePatch)
    ensures ApplyPatch(ApplyPatch(r, p), p) == ApplyPatch(r, p)
  {
  }

  /** `updateFilter(id, patch)`. */
  function UpdateFilter(filters: seq<FilterRule>, id: string, p: RulePatch): (r: seq<FilterRule>)
    ensures |r| == |filters|
    ensures forall i | 0 <= i < |filters| && filters[i].id != id :: r[i] == filters[i]
    ensures forall i | 0 <= i < |filters| && filters[i].id == id :: r[i] == ApplyPatch(filters[i], p)
  {
    seq(|filters|, i requires 0 <= i < |filters| =>
      if filters[i].id == id then ApplyPatch(filters[i], p) else filters[i])
  }

  function IdIsNot(id: string): FilterRule -> bool {
    (x: FilterRule) => x.id != id
  }

  /** `removeFilter(id)`. */
  function RemoveFilter(filters: seq<FilterRule>, id: string): (r: seq<FilterRule>)
    ensures forall x :: x in r <==> x in filters && x.id != id
    ensures IsSubsequence(r, filters)
    ensures forall x :: multiset(r)[x] == if x.id != id then multiset(filters)[x] else 0
  {
    FilterIsSubsequence(filters, IdIsNot(id));
    FilterCounts(filters, IdIsNot(id));
    Filter(filters, IdIsNot(id))
  }

  /** Adding a rule under a fresh id and removing that id gives the list back. */
  lemma RemoveUndoesAdd(filters: seq<FilterRule>, draft: RuleDraft, id: string)
    requires forall i | 0 <= i < |filters| :: filters[i].id != id
    ensures RemoveFilter(AddFilter(filters, draft, id), id) == filters
  {
    var p := IdIsNot(id);
    var added := AddFilter(filters, draft, id);
    assert added == filters + [added[|filters|]];
    FilterAppend(filters, [added[|filters|]], p);
    FilterAll(filters, p);
  }

  /** Updating a rule without touching its id does not change what removal keeps. */
  lemma RemoveAfterUpdate(filters: seq<FilterRule>, id: string, p: RulePatch)
    requires p.id == Keep
    ensures RemoveFilter(UpdateFilter(filters, id, p), id) == RemoveFilter(filters, id)
  {
    RemoveAfterUpdateFrom(filters, id, p);
  }

  lemma {:induction false} RemoveAfterUpdateFrom(filters: seq<FilterRule>, id: string, p: RulePatch)
    requires p.id == Keep
    ensures Filter(UpdateFilter(filters, id, p), IdIsNot(id)) == Filter(filters, IdIsNot(id))
  {
    if |filters| > 0 {
      RemoveAfterUpdateFrom(filters[1..], id, p);
      assert UpdateFilter(filters, id, p)[1..] == UpdateFilter(filters[1..], id, p);
    }
  }

  // ---------------------------------------------------------------------
  // Live "request finished" events
  // ---------------------------------------------------------------------

  /** The `request` part of a finished-request event. */
  datatype EventRequest = EventRequest(
    requestId: string,
    url: string,
    httpMethod: string,
    headers: Headers,
    postDataText: Option<string>
  )

  /** The `response` part of a finished-request event. */
  datatype EventResponse = EventResponse(status: nat, statusText: string, headers: Headers)

  /**
   * What `getContent` does: the event has none, the callback has not fired
   * yet, or it fired with the body.
   */
  datatype ContentDelivery = NoGetContent | Pending | Delivered(content: string)

  /**
   * A finished-request event. `started` is `Date.parse(startedDateTime)`
   * (`None` for NaN) and `time` the reported duration (0 when falsy).
   */
  datatype FinishedEvent = FinishedEvent(
    request: Option<EventRequest>,
    response: Option<EventResponse>,
    started: Option<int>,
    time: int,
    content: ContentDelivery
  )

  /** The "HTTP <status>" error text of a status of 400 or more. */
  function HttpErrorText(status: nat): Option<string> {
    if IsHttpError(status) then Some("HTTP " + NatToString(status)) else None
  }

  /**
   * The record built for an event; `syntheticId` and `now` stand for
   * `Date.now()` and `Math.random()`.
   */
  function LiveCall(ev: FinishedEvent, syntheticId: string, now: int): (c: CallRecord)
    ensures ev.request.None? ==> c.url == "" && c.httpMethod == "GET" && c.requestBody.None?
    ensures ev.response.None? ==> c.status == 0 && c.statusText == "" && c.error.None?
    ensures c.error.Some? <==> c.status >= 400
    ensures c.error.Some? ==> c.error.value == "HTTP " + NatToString(c.status)
    ensures c.requestHeaders != NoHeaders && c.responseHeaders != NoHeaders
  {
    var req := ev.request;
    var resp := ev.response;
    var status := if resp.Some? then resp.value.status else 0;
    CallRecord(
      if req.Some? && req.value.requestId != "" then req.value.requestId else syntheticId,
      if req.Some? then req.value.url else "",
      if req.Some? then Or(req.value.httpMethod, "GET") else "GET",
      status,
      if resp.Some? then resp.value.statusText else "",
      HeadersOrEmpty(if req.Some? then req.value.headers else NoHeaders),
      HeadersOrEmpty(if resp.Some? then resp.value.headers else NoHeaders),
      if req.Some? then req.value.postDataText else None,
      match ev.content case Delivered(body) => Some(body) case _ => None,
      if ev.started.Some? && ev.started.value != 0 then ev.started.value else now,
      ev.time,
      HttpErrorText(status))
  }

  /** The call list after an event: one record appended once the body is known, none while pending. */
  function OnRequestFinished(calls: seq<CallRecord>, ev: FinishedEvent, syntheticId: string, now: int)
    : (r: seq<CallRecord>)
    ensures ev.content.Pending? ==> r == calls
    ensures !ev.content.Pending? ==> |r| == |calls| + 1 && r[..|calls|] == calls
    ensures !ev.content.Pending? ==> (r[|calls|].responseBody.Some? <==> ev.content.Delivered?)
  {
    if ev.content.Pending? then calls else calls + [LiveCall(ev, syntheticId, now)]
  }

  /** No de-duplication: an event for an id already listed yields two records with that id. */
  lemma LiveEventsNotDeduplicated(calls: seq<CallRecord>, ev: FinishedEvent, syntheticId: string, now: int, j: int)
    requires !ev.content.Pending? && 0 <= j < |calls|
    requires calls[j].id == LiveCall(ev, syntheticId, now).id
    ensures var r := OnRequestFinished(calls, ev, syntheticId, now);
            r[j].id == r[|calls|].id && j != |calls|
  {
  }
}
