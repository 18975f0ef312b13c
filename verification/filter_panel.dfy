/**
 * The filter panel's rule-building helpers: the add form's expansion of a
 * multi-method rule, the edit form's load and save, and the multi-select
 * dropdown's toggle and caption. The rule list itself is edited through
 * `NetworkCalls.AddFilter` and `NetworkCalls.UpdateFilter`.
 */
module FilterPanel {
  import opened Wrappers
  import opened Strings
  import opened Seqs
  import opened Calls
  import opened NetworkCalls

  // ---------------------------------------------------------------------
  // Multi-select dropdown
  // ---------------------------------------------------------------------

  function IsNot(option: string): string -> bool {
    (v: string) => v != option
  }

  /** `toggleOption(option)`: drop every copy of a selected option, or append an unselected one. */
  function ToggleOption(selected: seq<string>, option: string): (r: seq<string>)
    ensures option in r <==> option !in selected
    ensures forall v | v != option :: v in r <==> v in selected
    ensures option !in selected ==> |r| == |selected| + 1 && r[..|selected|] == selected
    ensures option in selected ==>
              IsSubsequence(r, selected) && forall v | v != option :: multiset(r)[v] == multiset(selected)[v]
  {
    FilterIsSubsequence(selected, IsNot(option));
    FilterCounts(selected, IsNot(option));
    if option in selected then Filter(selected, IsNot(option)) else selected + [option]
  }

  /** Toggling the same option twice restores membership of every option. */
  lemma ToggleTwiceMembership(selected: seq<string>, option: string, v: string)
    ensures v in ToggleOption(ToggleOption(selected, option), option) <==> v in selected
  {
  }

  /** Starting from an unselected option, toggling twice restores the selection exactly. */
  lemma ToggleTwiceRestores(selected: seq<string>, option: string)
    requires option !in selected
    ensures ToggleOption(ToggleOption(selected, option), option) == selected
  {
    var once := selected + [option];
    assert ToggleOption(selected, option) == once;
    FilterAppend(selected, [option], IsNot(option));
    FilterAll(selected, IsNot(option));
    assert Filter([option], IsNot(option)) == [];
  }

  /** `displayText`: the placeholder, the single selection, or the count. */
  function DisplayText(selected: seq<string>, placeholder: string): string {
    if |selected| == 0 then placeholder
    else if |selected| == 1 then selected[0]
    else NatToString(|selected|) + " selected"
  }

  /**
   * The caption tells the three cases apart: a single selection shows
   * itself, and two or more show their count, which reads back from the
   * caption's leading digits.
   */
  lemma DisplayTextShows(selected: seq<string>, placeholder: string)
    ensures |selected| == 0 ==> DisplayText(selected, placeholder) == placeholder
    ensures |selected| == 1 ==> DisplayText(selected, placeholder) == selected[0]
    ensures |selected| >= 2 ==>
              var t := DisplayText(selected, placeholder);
              var n := NatToString(|selected|);
              && EndsWith(t, " selected") && t[..|n|] == n
              && forall m: nat | NatToString(m) == t[..|n|] :: m == |selected|
  {
    if |selected| >= 2 {
      var n := NatToString(|selected|);
      var t := n + " selected";
      assert t[..|n|] == n;
      assert t[|n|..] == " selected";
      forall m: nat | NatToString(m) == t[..|n|] ensures m == |selected| {
        NatToStringInjective(m, |selected|);
      }
    }
  }

  /** Toggling an option into an empty selection captions it; toggling it out restores the placeholder. */
  lemma ToggleCaption(option: string, placeholder: string)
    ensures DisplayText(ToggleOption([], option), placeholder) == option
    ensures DisplayText(ToggleOption([option], option), placeholder) == placeholder
  {
    assert [option][1..] == [];
  }

  // ---------------------------------------------------------------------
  // The add form
  // ---------------------------------------------------------------------

  /** The add form's state (`newFilter`); its `isActive` is never read. */
  datatype AddForm = AddForm(
    name: string,
    methods: seq<string>,
    urlPattern: string,
    includeHeaders: bool,
    includePayload: bool,
    includeResponse: bool,
    includeErrors: bool,
    responseCodeFilter: seq<string>,
    isActive: bool,
    isExclude: bool)

  /** The draft for one method, or for no method. */
  function DraftFor(form: AddForm, name: string, httpMethod: Option<string>): RuleDraft {
    RuleDraft(name, httpMethod, Some(form.urlPattern),
              Some(form.includeHeaders), Some(form.includePayload),
              Some(form.includeResponse), Some(form.includeErrors),
              if |form.responseCodeFilter| > 0 then Some(form.responseCodeFilter) else None,
              true, Some(form.isExclude))
  }

  /**
   * The drafts `handleAddFilter` passes to `onAddFilter`, in call order.
   * `name.trim()` is empty exactly when the name is blank
   * (`Strings.TrimEmptyIffBlank`), so the guard is written with `IsBlank`.
   */
  function AddDrafts(form: AddForm): (r: seq<RuleDraft>)
    ensures IsBlank(form.name) ==> r == []
    ensures !IsBlank(form.name) && |form.methods| > 0 ==>
              && |r| == |form.methods|
              && forall j | 0 <= j < |r| ::
                   r[j].httpMethod == Some(form.methods[j]) && r[j].name == form.name + " (" + form.methods[j] + ")"
    ensures !IsBlank(form.name) && |form.methods| == 0 ==>
              |r| == 1 && r[0].httpMethod.None? && r[0].name == form.name
    ensures forall j | 0 <= j < |r| ::
              && r[j].isActive && r[j].isExclude == Some(form.isExclude)
              && r[j].urlPattern == Some(form.urlPattern)
              && (r[j].responseCodeFilter.None? <==> form.responseCodeFilter == [])
              && (r[j].responseCodeFilter.Some? ==> r[j].responseCodeFilter.value == form.responseCodeFilter)
  {
    if IsBlank(form.name) then []
    else if |form.methods| > 0 then MethodDrafts(form)
    else [DraftFor(form, form.name, None)]
  }

  /** One draft per selected method, named after it. */
  function MethodDrafts(form: AddForm): (r: seq<RuleDraft>)
    ensures |r| == |form.methods|
    ensures forall j | 0 <= j < |r| ::
              r[j] == DraftFor(form, form.name + " (" + form.methods[j] + ")", Some(form.methods[j]))
  {
    seq(|form.methods|, j requires 0 <= j < |form.methods| =>
      DraftFor(form, form.name + " (" + form.methods[j] + ")", Some(form.methods[j])))
  }

  // ---------------------------------------------------------------------
  // Applying a batch of additions
  // ---------------------------------------------------------------------

  /** The clock reading (`Date.now()`) of the k-th `addFilter` call of a batch. */
  type Clock = nat -> string

  /** `rule` is the rule `addFilter` makes from draft `d` at clock reading `id`. */
  predicate MadeFrom(rule: FilterRule, d: RuleDraft, id: string) {
    && rule.id == id && rule.isActive
    && rule.name == d.name && rule.httpMethod == d.httpMethod
    && rule.urlPattern == d.urlPattern && rule.isExclude == d.isExclude
    && rule.responseCodeFilter == d.responseCodeFilter
  }

  /**
   * Additions applied one after another, each on the list the previous one
   * produced (`setFilters(prev => [...prev, rule])`).
   */
  function AddFrom(filters: seq<FilterRule>, drafts: seq<RuleDraft>, ids: Clock, k: nat): (r: seq<FilterRule>)
    requires k <= |drafts|
    ensures |r| == |filters| + |drafts| - k
    ensures r[..|filters|] == filters
    ensures forall i | |filters| <= i < |r| :: MadeFrom(r[i], drafts[k + i - |filters|], ids(k + i - |filters|))
    decreases |drafts| - k
  {
    if k == |drafts| then filters
    else
      var next := AddFilter(filters, drafts[k], ids(k));
      var r := AddFrom(next, drafts, ids, k + 1);
      assert r[..|filters|] == r[..|next|][..|filters|];
      assert r[|filters|] == r[..|next|][|filters|] == next[|filters|];
      assert MadeFrom(r[|filters|], drafts[k], ids(k));
      r
  }

  /**
   * `handleAddFilter` as written: each `addFilter` call computes
   * `[...filters, rule]` from the same `filters` the render captured, so the
   * list React keeps after the batch is the one the last call queued.
   */
  function HandleAddAsWritten(filters: seq<FilterRule>, form: AddForm, ids: Clock): (r: seq<FilterRule>)
    ensures |r| <= |filters| + 1
  {
    var drafts := AddDrafts(form);
    if |drafts| == 0 then filters
    else AddFilter(filters, drafts[|drafts| - 1], ids(|drafts| - 1))
  }

  /**
   * With two or more methods selected only the last method's rule
   * survives: one rule is added, not one per method.
   */
  lemma HandleAddAsWrittenKeepsLast(filters: seq<FilterRule>, form: AddForm, ids: Clock)
    requires !IsBlank(form.name) && |form.methods| >= 2
    ensures var r := HandleAddAsWritten(filters, form, ids);
            && |r| == |filters| + 1 < |filters| + |form.methods|
            && r[|filters|].httpMethod == Some(form.methods[|form.methods| - 1])
            && forall i | |filters| <= i < |r| :: r[i].httpMethod != Some(form.methods[0]) || form.methods[0] == form.methods[|form.methods| - 1]
  {
    var drafts := AddDrafts(form);
    var last := |drafts| - 1;
    assert |drafts| == |form.methods|;
    assert drafts[last].httpMethod == Some(form.methods[last]);
    var r := AddFilter(filters, drafts[last], ids(last));
    assert HandleAddAsWritten(filters, form, ids) == r;
    assert r[|filters|].httpMethod == drafts[last].httpMethod;
  }

  /** A concrete form: GET and POST selected yield a single POST rule. */
  lemma HandleAddAsWrittenExample(ids: Clock)
    ensures var form := AddForm("Orders", ["GET", "POST"], "", false, false, false, false, [], true, false);
            var r := HandleAddAsWritten([], form, ids);
            |r| == 1 && r[0].httpMethod == Some("POST") && r[0].name == "Orders (POST)"
  {
    var form := AddForm("Orders", ["GET", "POST"], "", false, false, false, false, [], true, false);
    assert form.name[0] == 'O' && !IsSpace('O');
    HandleAddAsWrittenKeepsLast([], form, ids);
  }

  /** `handleAddFilter` with additions that build on each other, as the expansion intends. */
  function HandleAdd(filters: seq<FilterRule>, form: AddForm, ids: Clock): seq<FilterRule> {
    AddFrom(filters, AddDrafts(form), ids, 0)
  }

  /**
   * A blank name adds nothing; otherwise the existing rules stay in front
   * and one active rule per selected method follows in selection order
   * (a single method-less rule when none is selected), each keeping the
   * form's exclude choice and storing an empty code selection as absent.
   */
  lemma HandleAddAppendsOnePerMethod(filters: seq<FilterRule>, form: AddForm, ids: Clock)
    ensures var r := HandleAdd(filters, form, ids);
            && r[..|filters|] == filters
            && (IsBlank(form.name) ==> r == filters)
            && (!IsBlank(form.name) && |form.methods| > 0 ==>
                  && |r| == |filters| + |form.methods|
                  && forall j | 0 <= j < |form.methods| ::
                       var rule := r[|filters| + j];
                       && rule.httpMethod == Some(form.methods[j])
                       && rule.name == form.name + " (" + form.methods[j] + ")"
                       && rule.isActive && rule.isExclude == Some(form.isExclude)
                       && (rule.responseCodeFilter.None? <==> form.responseCodeFilter == []))
            && (!IsBlank(form.name) && |form.methods| == 0 ==>
                  && |r| == |filters| + 1
                  && r[|filters|].httpMethod.None? && r[|filters|].name == form.name
                  && r[|filters|].isActive && r[|filters|].isExclude == Some(form.isExclude)
                  && (r[|filters|].responseCodeFilter.None? <==> form.responseCodeFilter == []))
  {
    var drafts := AddDrafts(form);
    var r := AddFrom(filters, drafts, ids, 0);
    assert r == HandleAdd(filters, form, ids);
    assert |r| == |filters| + |drafts|;
    if IsBlank(form.name) {
      assert drafts == [];
      assert r == filters;
    } else {
      forall j | 0 <= j < |drafts|
        ensures r[|filters| + j].httpMethod == drafts[j].httpMethod && r[|filters| + j].name == drafts[j].name
        ensures r[|filters| + j].isActive && r[|filters| + j].isExclude == Some(form.isExclude)
        ensures r[|filters| + j].responseCodeFilter.None? <==> form.responseCodeFilter == []
      {
        AddFromAt(filters, drafts, ids, j);
      }
      if |form.methods| > 0 {
        assert |drafts| == |form.methods|;
        forall j | 0 <= j < |form.methods|
          ensures var rule := r[|filters| + j];
                  && rule.httpMethod == Some(form.methods[j])
                  && rule.name == form.name + " (" + form.methods[j] + ")"
                  && rule.isActive && rule.isExclude == Some(form.isExclude)
                  && (rule.responseCodeFilter.None? <==> form.responseCodeFilter == [])
        {
          assert drafts[j].httpMethod == Some(form.methods[j]);
        }
      }
    }
  }

  /** The rule a batch adds for draft `j`, read off the batch's contract. */
  lemma AddFromAt(filters: seq<FilterRule>, drafts: seq<RuleDraft>, ids: Clock, j: nat)
    requires j < |drafts|
    ensures MadeFrom(AddFrom(filters, drafts, ids, 0)[|filters| + j], drafts[j], ids(j))
  {
    var r := AddFrom(filters, drafts, ids, 0);
    var i := |filters| + j;
    assert 0 + i - |filters| == j;
    assert MadeFrom(r[i], drafts[0 + i - |filters|], ids(0 + i - |filters|));
  }

  // ---------------------------------------------------------------------
  // The edit form
  // ---------------------------------------------------------------------

  /** The edit form's state (`editFilter`). */
  datatype EditForm = EditForm(
    name: string,
    httpMethod: string,
    urlPattern: string,
    includeHeaders: bool,
    includePayload: bool,
    includeResponse: bool,
    includeErrors: bool,
    responseCodeFilter: seq<string>,
    isActive: bool,
    isExclude: bool)

  function OrFalse(b: Option<bool>): bool {
    b.Some? && b.value
  }

  /** `handleEditFilter(filter)`: the form loaded from a rule, absent fields as "", false or []. */
  function EditFormFor(r: FilterRule): (f: EditForm)
    ensures f.httpMethod == "" <==> !Truthy(r.httpMethod)
    ensures f.urlPattern == "" <==> !Truthy(r.urlPattern)
    ensures f.responseCodeFilter == [] <==> r.responseCodeFilter.None? || r.responseCodeFilter.value == []
    ensures f.includeErrors <==> r.includeErrors == Some(true)
  {
    EditForm(r.name,
             if Truthy(r.httpMethod) then r.httpMethod.value else "",
             if Truthy(r.urlPattern) then r.urlPattern.value else "",
             OrFalse(r.includeHeaders), OrFalse(r.includePayload),
             OrFalse(r.includeResponse), OrFalse(r.includeErrors),
             if r.responseCodeFilter.Some? then r.responseCodeFilter.value else [],
             r.isActive, OrFalse(r.isExclude))
  }

  function NonEmptyOr(s: string): Option<string> {
    if s == "" then None else Some(s)
  }

  /**
   * `handleSaveEdit()`: the id and patch passed to `onUpdateFilter`, or
   * nothing when no rule is being edited or the name is blank (empty
   * after `trim()`).
   */
  function SaveEdit(editing: Option<string>, form: EditForm): (r: Option<(string, RulePatch)>)
    ensures r.None? <==> !Truthy(editing) || IsBlank(form.name)
    ensures r.Some? ==> r.value.0 == editing.value && r.value.1.id == Keep
    ensures r.Some? ==> r.value.1.httpMethod == Put(if form.httpMethod == "" then None else Some(form.httpMethod))
    ensures r.Some? ==> r.value.1.urlPattern == Put(if form.urlPattern == "" then None else Some(form.urlPattern))
  {
    if !Truthy(editing) || IsBlank(form.name) then None
    else Some((editing.value, RulePatch(
      Keep,
      Put(form.name),
      Put(NonEmptyOr(form.httpMethod)),
      Put(NonEmptyOr(form.urlPattern)),
      Put(Some(form.includeHeaders)),
      Put(Some(form.includePayload)),
      Put(Some(form.includeResponse)),
      Put(Some(form.includeErrors)),
      Put(if |form.responseCodeFilter| > 0 then Some(form.responseCodeFilter) else None),
      Put(form.isActive),
      Put(Some(form.isExclude)))))
  }

  /**
   * The shape a saved rule has: no empty method, pattern or code list,
   * and every flag present.
   */
  predicate Normal(r: FilterRule) {
    && r.httpMethod != Some("") && r.urlPattern != Some("")
    && r.includeHeaders.Some? && r.includePayload.Some?
    && r.includeResponse.Some? && r.includeErrors.Some?
    && r.responseCodeFilter != Some([]) && r.isExclude.Some?
  }

  /** Whatever rule a save patches comes out normal, keeping its id. */
  lemma SaveEditNormalises(rule: FilterRule, editing: Option<string>, form: EditForm)
    requires SaveEdit(editing, form).Some?
    ensures Normal(ApplyPatch(rule, SaveEdit(editing, form).value.1))
    ensures ApplyPatch(rule, SaveEdit(editing, form).value.1).id == rule.id
  {
  }

  /** Opening a normal rule in the edit form and saving it unchanged gives the rule back. */
  lemma EditSaveRoundTrip(rule: FilterRule)
    requires Normal(rule) && rule.id != "" && !IsBlank(rule.name)
    ensures var s := SaveEdit(Some(rule.id), EditFormFor(rule));
            s.Some? && s.value.0 == rule.id && ApplyPatch(rule, s.value.1) == rule
  {
  }

  /**
   * Saving through the rule list touches only the edited rule; every
   * other rule is unchanged and the list keeps its length.
   */
  lemma SaveEditUpdatesOnlyEdited(filters: seq<FilterRule>, editing: Option<string>, form: EditForm)
    requires SaveEdit(editing, form).Some?
    ensures var (id, p) := SaveEdit(editing, form).value;
            var r := UpdateFilter(filters, id, p);
            && |r| == |filters|
            && (forall i | 0 <= i < |r| && filters[i].id != id :: r[i] == filters[i])
            && (forall i | 0 <= i < |r| && filters[i].id == id :: Normal(r[i]) && r[i].name == form.name)
  {
  }

  /**
   * The add form stores an empty URL pattern as present-but-empty, which
   * the edit form's save turns into an absent one.
   */
  lemma AddedEmptyPatternIsNotNormal(form: AddForm)
    requires !IsBlank(form.name) && form.urlPattern == ""
    ensures forall j | 0 <= j < |AddDrafts(form)| :: AddDrafts(form)[j].urlPattern == Some("")
  {
  }

  // ---------------------------------------------------------------------
  // Header
  // ---------------------------------------------------------------------

  function ActiveTest(): FilterRule -> bool {
    (f: FilterRule) => f.isActive
  }

  /** The panel heading: it claims conjunction whenever any rule is active. */
  function Heading(filters: seq<FilterRule>): (r: string)
    ensures r == "Filters" <==> forall i | 0 <= i < |filters| :: !filters[i].isActive
  {
    var active := Filter(filters, ActiveTest());
    if |active| > 0 then
      assert active[0] in filters && active[0].isActive;
      "Filters (must match ALL active filters)"
    else
      NoneActive(filters);
      "Filters"
  }

  lemma {:induction false} NoneActive(filters: seq<FilterRule>)
    requires Filter(filters, ActiveTest()) == []
    ensures forall i | 0 <= i < |filters| :: !filters[i].isActive
  {
    if |filters| > 0 {
      assert filters == [filters[0]] + filters[1..];
      FilterCons(filters[0], filters[1..], ActiveTest());
      NoneActive(filters[1..]);
      assert forall i | 1 <= i < |filters| :: filters[i] == filters[1..][i - 1];
    }
  }
}
