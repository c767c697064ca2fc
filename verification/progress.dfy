/**
 * The progress panel of frontend/components/UploadProgress.tsx: how many of the three
 * stages are completed, and the status each stage is shown with.
 */
module ProgressView {
  import opened Common
  import Polling

  /** The stages the panel shows, in order. */
  const Stages: seq<string> := ["ocr", "text_processing", "tts"]

  /** `progress.X === 'completed'`, reading a missing progress object as `{}`. */
  predicate StageDone(progress: Option<map<string, string>>, stage: string) {
    progress.Some? && stage in progress.value && progress.value[stage] == "completed"
  }

  /** `[…].filter(Boolean).length` over the given stages. */
  function CountDone(progress: Option<map<string, string>>, stages: seq<string>): (n: nat)
    ensures n <= |stages|
    ensures n == 0 <==> forall k :: 0 <= k < |stages| ==> !StageDone(progress, stages[k])
    ensures n == |stages| <==> forall k :: 0 <= k < |stages| ==> StageDone(progress, stages[k])
  {
    if stages == [] then 0
    else (if StageDone(progress, stages[0]) then 1 else 0) + CountDone(progress, stages[1..])
  }

  /** `completedSteps`: between 0 and 3; 0 exactly when no stage is done, 3 exactly when all are. */
  function CompletedSteps(progress: Option<map<string, string>>): (n: nat)
    ensures n <= 3
    ensures n == 0 <==> forall k :: 0 <= k < 3 ==> !StageDone(progress, Stages[k])
    ensures n == 3 <==> forall k :: 0 <= k < 3 ==> StageDone(progress, Stages[k])
  {
    CountDone(progress, Stages)
  }

  /** A stage once done stays counted: more completed stages never give a smaller count. */
  lemma {:induction false} CountDoneMonotone(p: Option<map<string, string>>, q: Option<map<string, string>>, stages: seq<string>)
    requires forall k :: 0 <= k < |stages| && StageDone(p, stages[k]) ==> StageDone(q, stages[k])
    ensures CountDone(p, stages) <= CountDone(q, stages)
  {
    if stages != [] {
      CountDoneMonotone(p, q, stages[1..]);
    }
  }

  /** `Math.round(completedSteps / 3 * 100)`: 0, 33, 67 or 100. */
  function RoundedPercent(n: nat): (pct: nat)
    requires n <= 3
    ensures n == 0 ==> pct == 0
    ensures n == 1 ==> pct == 33
    ensures n == 2 ==> pct == 67
    ensures n == 3 ==> pct == 100
  {
    (200 * n + 3) / 6
  }

  /** `getStepStatus`: one of the three class names; anything unknown shows as pending. */
  function StepStatus(status: string): (r: string)
    ensures r in {"completed", "processing", "pending"}
    ensures r == status <==> status in {"completed", "processing", "pending"}
    ensures status !in {"completed", "processing"} ==> r == "pending"
  {
    if status == "completed" then "completed"
    else if status == "processing" then "processing"
    else "pending"
  }

  /**
   * `getStepStatus(progress.X || 'pending')`: shown as completed exactly when counted as
   * completed, and pending when the stage is missing.
   */
  function StageStatus(progress: Option<map<string, string>>, stage: string): (r: string)
    ensures r == "completed" <==> StageDone(progress, stage)
    ensures progress.None? || stage !in progress.value ==> r == "pending"
  {
    var raw := if progress.Some? && stage in progress.value && progress.value[stage] != "" then progress.value[stage] else "pending";
    StepStatus(raw)
  }

  /** What the panel draws: the count, the rounded percentage and the three stage statuses. */
  datatype Panel = Panel(completedSteps: nat, percent: nat, steps: seq<string>)

  /** The panel for a task, or nothing at all when there is no task yet. */
  function Render(task: Option<Polling.TaskView>): (r: Option<Panel>)
    ensures r.None? <==> task.None?
    ensures r.Some? ==> |r.value.steps| == 3 && r.value.completedSteps <= 3
    ensures r.Some? ==> forall k :: 0 <= k < 3 ==> (r.value.steps[k] == "completed" <==> StageDone(task.value.progress, Stages[k]))
    ensures r.Some? ==> (r.value.percent == 100 <==> forall k :: 0 <= k < 3 ==> r.value.steps[k] == "completed")
  {
    match task
    case None => None
    case Some(t) =>
      var n := CompletedSteps(t.progress);
      var steps := [StageStatus(t.progress, Stages[0]), StageStatus(t.progress, Stages[1]), StageStatus(t.progress, Stages[2])];
      Some(Panel(n, RoundedPercent(n), steps))
  }
}
