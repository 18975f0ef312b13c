/**
 * The start-up progress tracker: a fixed list of stages, the `updateStage`
 * reducer, the current-stage lookup and the loading flag. Progress values
 * are reals; a mean over no stages (NaN in the source) is `None`.
 */
module ProgressiveLoading {
  import opened Wrappers
  import opened Strings

  datatype Stage = Stage(id: string, name: string, progress: real, completed: bool)

  datatype LoadingState = LoadingState(
    currentStage: string,
    overallProgress: Option<real>,
    stages: seq<Stage>,
    isComplete: bool,
    error: Option<string>)

  const ReadyId := "ready"

  const InitialStages: seq<Stage> := [
    Stage("initialization", "Initializing Browser Investigator...", 0.0, false),
    Stage("storage", "Loading saved settings...", 0.0, false),
    Stage("devtools", "Connecting to DevTools API...", 0.0, false),
    Stage("components", "Loading interface components...", 0.0, false),
    Stage(ReadyId, "Ready to capture network calls!", 100.0, false)
  ]

  const InitialState := LoadingState("initialization", Some(0.0), InitialStages, false, None)

  // ---------------------------------------------------------------------
  // Helpers with their own meaning
  // ---------------------------------------------------------------------

  /** `findIndex(s => s.id === id)`: the first stage with that id, or -1. */
  function FindStage(stages: seq<Stage>, id: string): (r: int)
    ensures -1 <= r < |stages|
    ensures r >= 0 ==> stages[r].id == id
    ensures forall i | 0 <= i < |stages| && (r == -1 || i < r) :: stages[i].id != id
  {
    if |stages| == 0 then -1
    else if stages[0].id == id then 0
    else
      var r := FindStage(stages[1..], id);
      assert forall i | 1 <= i < |stages| :: stages[i] == stages[1..][i - 1];
      if r == -1 then -1 else r + 1
  }

  function Sum(stages: seq<Stage>): real {
    if |stages| == 0 then 0.0 else stages[0].progress + Sum(stages[1..])
  }

  /** The arithmetic mean of the progress values; `None` stands for NaN on an empty list. */
  function Mean(stages: seq<Stage>): Option<real> {
    if |stages| == 0 then None else Some(Sum(stages) / (|stages| as real))
  }

  lemma {:induction false} SumBounds(stages: seq<Stage>, lo: real, hi: real)
    requires forall i | 0 <= i < |stages| :: lo <= stages[i].progress <= hi
    ensures lo * (|stages| as real) <= Sum(stages) <= hi * (|stages| as real)
  {
    if |stages| > 0 {
      assert forall i | 0 <= i < |stages[1..]| :: stages[1..][i] == stages[i + 1];
      SumBounds(stages[1..], lo, hi);
    }
  }

  /** When every stage's progress lies in [lo, hi], so does the overall progress. */
  lemma MeanBounds(stages: seq<Stage>, lo: real, hi: real)
    requires |stages| > 0
    requires forall i | 0 <= i < |stages| :: lo <= stages[i].progress <= hi
    ensures lo <= Mean(stages).value <= hi
  {
    SumBounds(stages, lo, hi);
    var n := |stages| as real;
    assert lo * n / n == lo && hi * n / n == hi;
  }

  predicate AllCompleted(stages: seq<Stage>) {
    forall i | 0 <= i < |stages| :: stages[i].completed
  }

  // ---------------------------------------------------------------------
  // The reducer
  // ---------------------------------------------------------------------

  /** `completed ?? progress >= 100`. */
  function CompletedFlag(progress: real, completed: Option<bool>): bool {
    if completed.Some? then completed.value else progress >= 100.0
  }

  /** The stage list after an update: the matching stages take the new values. */
  function UpdatedStages(stages: seq<Stage>, stageId: string, progress: real, completed: Option<bool>): (r: seq<Stage>)
    ensures |r| == |stages|
    ensures forall i | 0 <= i < |stages| :: r[i].id == stages[i].id && r[i].name == stages[i].name
  {
    seq(|stages|, i requires 0 <= i < |stages| =>
      if stages[i].id == stageId
      then stages[i].(progress := progress, completed := CompletedFlag(progress, completed))
      else stages[i])
  }

  /** `updateStage(stageId, progress, completed)` applied to a state. */
  function UpdateStage(st: LoadingState, stageId: string, progress: real, completed: Option<bool>): (r: LoadingState)
    ensures |r.stages| == |st.stages| && r.error == st.error
    ensures r.isComplete <==> AllCompleted(r.stages)
    ensures r.isComplete ==> r.currentStage == ReadyId
    ensures r.overallProgress == Mean(r.stages)
  {
    var stages := UpdatedStages(st.stages, stageId, progress, completed);
    var idx := FindStage(stages, stageId);
    var advance := completed == Some(true) && idx + 1 < |stages|;
    var next := if advance then stages[idx + 1].id else stageId;
    var complete := AllCompleted(stages);
    LoadingState(if complete then ReadyId else next, Mean(stages), stages, complete, st.error)
  }

  /**
   * The update changes exactly the stages carrying the id: each takes the
   * given progress and the completion flag (defaulting to progress of at
   * least 100); every other stage is left as it was.
   */
  lemma UpdateTouchesOnlyId(st: LoadingState, stageId: string, progress: real, completed: Option<bool>, i: int)
    requires 0 <= i < |st.stages|
    ensures var s := UpdateStage(st, stageId, progress, completed).stages[i];
            && (st.stages[i].id != stageId ==> s == st.stages[i])
            && (st.stages[i].id == stageId ==>
                  && s.id == st.stages[i].id && s.name == st.stages[i].name && s.progress == progress
                  && (completed.None? ==> (s.completed <==> progress >= 100.0))
                  && (completed.Some? ==> s.completed == completed.value))
  {
  }

  /** An unknown id leaves every stage unchanged. */
  lemma UnknownIdKeepsStages(st: LoadingState, stageId: string, progress: real, completed: Option<bool>)
    requires forall i | 0 <= i < |st.stages| :: st.stages[i].id != stageId
    ensures UpdateStage(st, stageId, progress, completed).stages == st.stages
  {
  }

  /**
   * The current stage after an update that leaves some stage unfinished:
   * the stage after the updated one when `completed` was passed as true
   * and such a stage exists (the first stage for an unknown id), otherwise
   * the updated id itself, even when progress alone completed it.
   */
  lemma CurrentStageAfterUpdate(st: LoadingState, stageId: string, progress: real, completed: Option<bool>)
    ensures var r := UpdateStage(st, stageId, progress, completed);
            var k := FindStage(st.stages, stageId);
            !r.isComplete ==>
              (if completed == Some(true) && k + 1 < |st.stages|
               then r.currentStage == st.stages[k + 1].id
               else r.currentStage == stageId)
  {
    var stages := UpdatedStages(st.stages, stageId, progress, completed);
    var k := FindStage(st.stages, stageId);
    var k' := FindStage(stages, stageId);
    assert k' == k by {
      if k >= 0 {
        assert stages[k].id == stageId;
      }
      if k' >= 0 {
        assert st.stages[k'].id == stageId;
      }
    }
  }

  /** A completion update: progress 100, `completed` passed as true. */
  function Complete(st: LoadingState, stageId: string): LoadingState {
    UpdateStage(st, stageId, 100.0, Some(true))
  }

  /** Completion updates applied in order. */
  function CompleteAll(st: LoadingState, ids: seq<string>): (r: LoadingState)
    ensures |r.stages| == |st.stages|
    decreases |ids|
  {
    if |ids| == 0 then st else CompleteAll(Complete(st, ids[0]), ids[1..])
  }

  /** After a run of completions, exactly the stages named in it are finished at 100. */
  lemma {:induction false} CompleteAllStages(st: LoadingState, ids: seq<string>, i: int)
    requires 0 <= i < |st.stages|
    ensures |CompleteAll(st, ids).stages| == |st.stages|
    ensures var s := CompleteAll(st, ids).stages[i];
            (if st.stages[i].id in ids then s == st.stages[i].(progress := 100.0, completed := true)
             else s == st.stages[i])
    decreases |ids|
  {
    if |ids| > 0 {
      var next := Complete(st, ids[0]);
      UpdateTouchesOnlyId(st, ids[0], 100.0, Some(true), i);
      CompleteAllStages(next, ids[1..], i);
      assert st.stages[i].id in ids <==> st.stages[i].id == ids[0] || st.stages[i].id in ids[1..];
    }
  }

  lemma {:induction false} SumAllHundred(stages: seq<Stage>)
    requires forall i | 0 <= i < |stages| :: stages[i].progress == 100.0
    ensures Sum(stages) == 100.0 * (|stages| as real)
  {
    if |stages| > 0 {
      assert forall i | 0 <= i < |stages[1..]| :: stages[1..][i] == stages[i + 1];
      SumAllHundred(stages[1..]);
    }
  }

  /**
   * Completing every stage, in any order, finishes loading: the state is
   * complete, the current stage is "ready" and the overall progress is 100.
   * This covers both orders in which the last two completions of
   * `startLoading` (both due at 1400 ms) can fire.
   */
  lemma CompletingEveryStageFinishes(st: LoadingState, ids: seq<string>)
    requires |ids| > 0 && |st.stages| > 0
    requires forall i | 0 <= i < |st.stages| :: st.stages[i].id in ids
    ensures var r := CompleteAll(st, ids);
            r.isComplete && r.currentStage == ReadyId && r.overallProgress == Some(100.0)
  {
    CompleteAllSplit(st, ids);
    var r := CompleteAll(st, ids);
    forall i | 0 <= i < |r.stages|
      ensures r.stages[i].completed && r.stages[i].progress == 100.0
    {
      CompleteAllStages(st, ids, i);
    }
    MeanAllHundred(r.stages);
  }

  lemma MeanAllHundred(stages: seq<Stage>)
    requires |stages| > 0
    requires forall i | 0 <= i < |stages| :: stages[i].progress == 100.0
    ensures Mean(stages) == Some(100.0)
  {
    SumAllHundred(stages);
    var n := |stages| as real;
    assert 100.0 * n / n == 100.0;
  }

  lemma {:induction false} CompleteAllSplit(st: LoadingState, ids: seq<string>)
    requires |ids| > 0
    ensures CompleteAll(st, ids) == Complete(CompleteAll(st, ids[..|ids| - 1]), ids[|ids| - 1])
    decreases |ids|
  {
    if |ids| > 1 {
      CompleteAllSplit(Complete(st, ids[0]), ids[1..]);
      assert ids[1..][..|ids[1..]| - 1] == ids[..|ids| - 1][1..];
    }
  }

  /** The two completion orders `startLoading` can produce at its last tick. */
  lemma StartLoadingFinishes()
    ensures var ends := ["initialization", "storage", "devtools"];
            && CompleteAll(InitialState, ends + ["components", ReadyId]).isComplete
            && CompleteAll(InitialState, ends + [ReadyId, "components"]).isComplete
            && CompleteAll(InitialState, ends + [ReadyId, "components"]).currentStage == ReadyId
  {
    var ends := ["initialization", "storage", "devtools"];
    var a := ends + ["components", ReadyId];
    var b := ends + [ReadyId, "components"];
    assert forall i | 0 <= i < |InitialStages| :: InitialStages[i].id in a && InitialStages[i].id in b by {
      assert a[0] == "initialization" && a[1] == "storage" && a[2] == "devtools" && a[3] == "components" && a[4] == ReadyId;
      assert b[0] == "initialization" && b[1] == "storage" && b[2] == "devtools" && b[3] == ReadyId && b[4] == "components";
    }
    CompletingEveryStageFinishes(InitialState, a);
    CompletingEveryStageFinishes(InitialState, b);
  }

  /** A progress tick followed by the completion of the same stage leaves what the completion alone leaves. */
  lemma CompletionOverridesTick(st: LoadingState, stageId: string, tick: real)
    ensures Complete(UpdateStage(st, stageId, tick, None), stageId).stages == Complete(st, stageId).stages
  {
  }

  // ---------------------------------------------------------------------
  // Error, lookup and the loading flag
  // ---------------------------------------------------------------------

  /** `setError(error)`. */
  function SetError(st: LoadingState, e: string): (r: LoadingState)
    ensures r.error == Some(e) && r.(error := st.error) == st
  {
    st.(error := Some(e))
  }

  /** `isLoading`: not complete and no (truthy) error. */
  predicate IsLoading(st: LoadingState) {
    !st.isComplete && (st.error.None? || st.error.value == "")
  }

  /** Reporting an error stops the loading flag, unless the message is empty. */
  lemma ErrorStopsLoading(st: LoadingState, e: string)
    ensures IsLoading(SetError(st, e)) <==> !st.isComplete && e == ""
  {
  }

  /** `getCurrentStageInfo()`: name and progress of the current stage, with fallbacks. */
  function CurrentStageInfo(st: LoadingState): (r: (string, real))
    ensures (forall i | 0 <= i < |st.stages| :: st.stages[i].id != st.currentStage) ==> r == ("Loading...", 0.0)
    ensures forall i | 0 <= i < |st.stages| && st.stages[i].id == st.currentStage
                         && (forall j | 0 <= j < i :: st.stages[j].id != st.currentStage) ::
              r.1 == st.stages[i].progress && r.0 == Or(st.stages[i].name, "Loading...")
  {
    var k := FindStage(st.stages, st.currentStage);
    assert forall i | 0 <= i < |st.stages| && st.stages[i].id == st.currentStage
                        && (forall j | 0 <= j < i :: st.stages[j].id != st.currentStage) :: i == k;
    if k == -1 then ("Loading...", 0.0)
    else (Or(st.stages[k].name, "Loading..."), st.stages[k].progress)
  }

  /** Right after start-up the tracker shows its first stage at 0 and is loading. */
  lemma InitialInfo()
    ensures CurrentStageInfo(InitialState) == ("Initializing Browser Investigator...", 0.0)
    ensures IsLoading(InitialState)
  {
    assert InitialStages[0].id == InitialState.currentStage;
  }
}
