/**
 Whole runs of the job queue: submissions from the panel, one worker at a time (the worker lock), and
 a crash between any two writes. The two writes whose failure the worker survives may fail.
 */
module JobRuns {
  import opened Wrappers
  import opened JobStore

  /** `Noted` names the orphan that is about to be scrubbed, `Reaping` and `Finishing` the job whose scrub has been done (or given up) and whose last write is due. */
  datatype Worker = Down | Reaping(due: Option<Id>) | Noted(id: Id) | Idle | Busy(id: Id) | Finishing(id: Id)

  /** `numbers` remembers every submission, `claims` every claim, `commands` the claim under which a command was started. */
  datatype World = World(files: map<Id, Job>, worker: Worker, numbers: map<Id, nat>, claims: seq<Id>, commands: seq<(Id, nat)>)

  const INITIAL := World(map[], Down, map[], [], [])

  datatype Step =
    | Submit(id: Id, action: string, params: Params, number: nat)
    | Boot
    | ReapNote(id: Id)
    | ReapScrub
    | ReapScrubFails
    | ReapFinish
    | ReapDone
    | Claim(id: Id, listed: seq<Id>)
    | Command
    | Print(text: string)
    | Scrub
    | ScrubFails
    | Finish(success: bool, exitCode: int)
    | FinishFails
    | Crash
    | Prune(id: Id)

  /** Ids are drawn afresh; the clock that gives the numbers may stand still or go back. */
  predicate Enabled(w: World, step: Step) {
    match step
    case Submit(id, _, _, _) => id !in w.numbers
    case Boot => w.worker.Down?
    case ReapNote(id) => w.worker == Reaping(None) && id in w.files && w.files[id].state.Running?
    case ReapScrub => w.worker.Noted? && w.worker.id in w.files
    case ReapScrubFails => w.worker.Noted?
    case ReapFinish => w.worker.Reaping? && w.worker.due.Some? && w.worker.due.value in w.files
    case ReapDone => w.worker == Reaping(None)
    case Claim(id, listed) => w.worker.Idle? && Listing(w.files, listed) && OldestQueued(w.files, listed, id)
    case Command => w.worker.Busy? && w.claims != []
    case Print(_) => w.worker.Busy? && w.worker.id in w.files
    case Scrub => w.worker.Busy? && w.worker.id in w.files
    case ScrubFails => w.worker.Busy?
    case Finish(_, _) => w.worker.Finishing? && w.worker.id in w.files
    case FinishFails => w.worker.Finishing?
    case Crash => !w.worker.Down?
    case Prune(id) => w.worker.Idle? && id in w.files && Terminal(w.files[id].state)
  }

  function Ended(job: Job, success: bool, exitCode: int): Job {
    job.(state := if success then Succeeded else Failed, exitCode := Some(exitCode))
  }

  function Apply(w: World, step: Step): World
    requires Enabled(w, step)
  {
    match step
    case Submit(id, action, params, number) =>
      w.(files := w.files[id := Submitted(action, params, number)], numbers := w.numbers[id := number])
    case Boot => w.(worker := Reaping(None))
    case ReapNote(id) => w.(files := w.files[id := Appended(w.files[id], ORPHANED)], worker := Noted(id))
    case ReapScrub => w.(files := w.files[w.worker.id := Scrubbed(w.files[w.worker.id])], worker := Reaping(Some(w.worker.id)))
    case ReapScrubFails => w.(worker := Reaping(Some(w.worker.id)))
    case ReapFinish =>
      var id := w.worker.due.value;
      w.(files := w.files[id := Ended(w.files[id], false, 1)], worker := Reaping(None))
    case ReapDone => w.(worker := Idle)
    case Claim(id, _) => w.(files := w.files[id := w.files[id].(state := Running)], worker := Busy(id), claims := w.claims + [id])
    case Command => w.(commands := w.commands + [(w.worker.id, |w.claims| - 1)])
    case Print(text) => w.(files := w.files[w.worker.id := Appended(w.files[w.worker.id], text)])
    case Scrub => w.(files := w.files[w.worker.id := Scrubbed(w.files[w.worker.id])], worker := Finishing(w.worker.id))
    case ScrubFails => w.(worker := Finishing(w.worker.id))
    case Finish(success, exitCode) =>
      w.(files := w.files[w.worker.id := Ended(w.files[w.worker.id], success, exitCode)], worker := Idle)
    case FinishFails => w.(worker := Idle)
    case Crash => w.(worker := Down)
    case Prune(id) => w.(files := map other | other in w.files && other != id :: w.files[other])
  }

  predicate Run(trace: seq<World>, steps: seq<Step>) {
    && |trace| == |steps| + 1 && trace[0] == INITIAL
    && forall i | 0 <= i < |steps| :: Enabled(trace[i], steps[i]) && trace[i + 1] == Apply(trace[i], steps[i])
  }

  // ---------------------------------------------------------------------------------------------
  // What every step keeps
  // ---------------------------------------------------------------------------------------------

  predicate Numbered(w: World) {
    forall id | id in w.files :: id in w.numbers && w.numbers[id] == w.files[id].number
  }

  /** A job is claimed once, and only a job that was never claimed is queued. */
  predicate ClaimedOnce(w: World) {
    && (forall i, j | 0 <= i < j < |w.claims| :: w.claims[i] != w.claims[j])
    && (forall id | id in w.claims :: id in w.numbers)
    && (forall id | id in w.numbers && id !in w.claims :: id in w.files && w.files[id].state.Queued?)
    && forall id | id in w.files && w.files[id].state.Queued? :: id !in w.claims
  }

  predicate AtWork(w: World) {
    && (w.worker.Busy? || w.worker.Finishing? ==>
          && w.worker.id in w.files && w.files[w.worker.id].state.Running?
          && w.claims != [] && w.claims[|w.claims| - 1] == w.worker.id)
    && (w.worker.Noted? ==> w.worker.id in w.files && w.files[w.worker.id].state.Running?)
    && (w.worker.Reaping? && w.worker.due.Some? ==> w.worker.due.value in w.files && w.files[w.worker.due.value].state.Running?)
  }

  predicate Claimed(w: World) {
    forall c | c in w.commands :: c.1 < |w.claims| && w.claims[c.1] == c.0
  }

  predicate Inv(w: World) {
    Numbered(w) && ClaimedOnce(w) && AtWork(w) && Claimed(w)
  }

  /** The job whose file a step writes. */
  function Subject(w: World, step: Step): Option<Id> {
    match step
    case Submit(id, _, _, _) => Some(id)
    case Claim(id, _) => Some(id)
    case ReapNote(id) => Some(id)
    case ReapScrub => if w.worker.Noted? then Some(w.worker.id) else None
    case ReapFinish => if w.worker.Reaping? then w.worker.due else None
    case Print(_) => if w.worker.Busy? then Some(w.worker.id) else None
    case Scrub => if w.worker.Busy? then Some(w.worker.id) else None
    case Finish(_, _) => if w.worker.Finishing? then Some(w.worker.id) else None
    case _ => None
  }

  /** What a step can do to a job file that was there before. */
  predicate Moved(w: World, step: Step, id: Id, x: Job, y: Job) {
    && y.number == x.number && y.action == x.action && (HoldsToken(y) ==> HoldsToken(x))
    && (Subject(w, step) != Some(id) ==> y == x)
    && if step.Claim? && step.id == id then y.state.Running?
       else if (step.Finish? || step.ReapFinish?) && Subject(w, step) == Some(id) then Terminal(y.state)
       else y.state == x.state
  }

  /** All that a step does to the files. */
  predicate FilesMoved(w: World, step: Step, next: World) {
    && (forall id | id in next.files :: id in w.files || (step.Submit? && step.id == id))
    && (forall id | id in w.files && id !in next.files :: step == Prune(id))
    && (forall id | id in next.files && id in w.files && !(step.Submit? && step.id == id) :: Moved(w, step, id, w.files[id], next.files[id]))
    && (step.Submit? ==> step.id in next.files && next.files[step.id].state.Queued? && next.files[step.id].number == step.number)
  }

  lemma StepMoves(w: World, step: Step)
    requires Enabled(w, step)
    ensures FilesMoved(w, step, Apply(w, step))
  {
    hide Listing, Scrubbed, Capped, Holds;
    match step
    case Scrub => ScrubKeeps(w.files[w.worker.id]);
    case ReapScrub => ScrubKeeps(w.files[w.worker.id]);
    case _ =>
  }

  lemma ScrubKeeps(job: Job)
    ensures Scrubbed(job) == job.(params := Scrubbed(job).params)
    ensures !HoldsToken(Scrubbed(job))
  {
  }

  lemma SubmitNumbers(w: World, step: Step)
    requires Enabled(w, step)
    ensures Apply(w, step).numbers == if step.Submit? then w.numbers[step.id := step.number] else w.numbers
    ensures Apply(w, step).claims == if step.Claim? then w.claims + [step.id] else w.claims
  {
    hide Listing, OldestQueued, Scrubbed, Appended;
  }

  lemma StepKeepsNumbers(w: World, step: Step)
    requires Numbered(w) && Enabled(w, step)
    ensures Numbered(Apply(w, step))
  {
    hide Listing, OldestQueued, Apply, HoldsToken;
    StepMoves(w, step);
    SubmitNumbers(w, step);
  }

  lemma ClaimIsOfQueued(w: World, id: Id, listed: seq<Id>)
    requires Enabled(w, Claim(id, listed))
    ensures id in w.files && w.files[id].state.Queued?
  {
  }

  lemma QueuedStays(w: World, step: Step, id: Id)
    requires Enabled(w, step) && id in w.files && w.files[id].state.Queued? && !(step.Claim? && step.id == id) && AtWork(w)
    ensures id in Apply(w, step).files && Apply(w, step).files[id].state.Queued?
  {
    hide Listing, OldestQueued, Apply, HoldsToken;
    StepMoves(w, step);
  }

  lemma QueuedWas(w: World, step: Step, id: Id)
    requires Enabled(w, step) && id in Apply(w, step).files && Apply(w, step).files[id].state.Queued?
    ensures (step.Submit? && step.id == id) || (id in w.files && w.files[id].state.Queued? && !(step.Claim? && step.id == id))
  {
    hide Listing, OldestQueued, Apply, HoldsToken, Enabled;
    StepMoves(w, step);
  }

  lemma StepKeepsClaims(w: World, step: Step)
    requires Inv(w) && Enabled(w, step)
    ensures ClaimedOnce(Apply(w, step))
  {
    hide Listing, OldestQueued, Apply, HoldsToken, AtWork, FilesMoved;
    var next := Apply(w, step);
    SubmitNumbers(w, step);
    if step.Claim? {
      ClaimIsOfQueued(w, step.id, step.listed);
    }
    if step.Submit? {
      StepMoves(w, step);
      FreshIsQueued(w, step, next);
    }
    forall id | id in next.numbers && id !in next.claims ensures id in next.files && next.files[id].state.Queued? {
      if id in w.numbers {
        QueuedStays(w, step, id);
      }
    }
    forall id | id in next.files && next.files[id].state.Queued? ensures id !in next.claims {
      QueuedWas(w, step, id);
    }
  }

  lemma FreshIsQueued(w: World, step: Step, next: World)
    requires step.Submit? && FilesMoved(w, step, next)
    ensures step.id in next.files && next.files[step.id].state.Queued?
  {
  }

  lemma WorkerNext(w: World, step: Step)
    requires Enabled(w, step)
    ensures Apply(w, step).worker ==
            match step
            case Boot => Reaping(None)
            case ReapNote(id) => Noted(id)
            case ReapScrub => Reaping(Some(w.worker.id))
            case ReapScrubFails => Reaping(Some(w.worker.id))
            case ReapFinish => Reaping(None)
            case ReapDone => Idle
            case Claim(id, _) => Busy(id)
            case Scrub => Finishing(w.worker.id)
            case ScrubFails => Finishing(w.worker.id)
            case Finish(_, _) => Idle
            case FinishFails => Idle
            case Crash => Down
            case _ => w.worker
    ensures Apply(w, step).commands == if step.Command? then w.commands + [(w.worker.id, |w.claims| - 1)] else w.commands
  {
    hide Listing, OldestQueued, Scrubbed, Appended;
  }

  lemma StepKeepsWork(w: World, step: Step)
    requires Inv(w) && Enabled(w, step)
    ensures AtWork(Apply(w, step))
  {
    hide Listing, OldestQueued, Apply, HoldsToken, Numbered, ClaimedOnce, Claimed;
    StepMoves(w, step);
    SubmitNumbers(w, step);
    WorkerNext(w, step);
    FreshNumber(w, step);
    if step.Claim? {
      ClaimIsOfQueued(w, step.id, step.listed);
    }
  }

  lemma StepKeepsCommands(w: World, step: Step)
    requires AtWork(w) && Claimed(w) && Enabled(w, step)
    ensures Claimed(Apply(w, step))
  {
    hide Apply, Listing, OldestQueued;
    SubmitNumbers(w, step);
    WorkerNext(w, step);
  }

  lemma FreshNumber(w: World, step: Step)
    requires Inv(w) && Enabled(w, step)
    ensures step.Submit? ==> step.id !in w.files
  {
    hide Listing, OldestQueued;
  }

  lemma {:induction false} InvHolds(trace: seq<World>, steps: seq<Step>, n: nat)
    requires Run(trace, steps) && n < |trace|
    ensures Inv(trace[n])
  {
    hide Enabled, Apply, Inv, Numbered, ClaimedOnce, AtWork, Claimed;
    if n == 0 {
      InitialInv();
    } else {
      InvHolds(trace, steps, n - 1);
      InvStep(trace[n - 1], steps[n - 1]);
    }
  }

  lemma InitialInv()
    ensures Inv(INITIAL)
  {
  }

  lemma InvStep(w: World, step: Step)
    requires Inv(w) && Enabled(w, step)
    ensures Inv(Apply(w, step))
  {
    hide Enabled, Apply, Numbered, ClaimedOnce, AtWork, Claimed;
    assert Numbered(w) by {
      InvParts(w);
    }
    StepKeepsNumbers(w, step);
    StepKeepsClaims(w, step);
    StepKeepsWork(w, step);
    StepKeepsCommands(w, step);
  }

  lemma InvParts(w: World)
    requires Inv(w)
    ensures Numbered(w) && ClaimedOnce(w) && AtWork(w) && Claimed(w)
  {
  }

  /** The commands of a job are all started under one claim, whatever crashed in between. */
  lemma CommandsUnderOneClaim(trace: seq<World>, steps: seq<Step>, n: nat, i: nat, j: nat)
    requires Run(trace, steps) && n < |trace| && i < |trace[n].commands| && j < |trace[n].commands|
    requires trace[n].commands[i].0 == trace[n].commands[j].0
    ensures trace[n].commands[i] == trace[n].commands[j]
  {
    hide Run, Enabled, Apply;
    InvHolds(trace, steps, n);
    var w := trace[n];
    assert w.commands[i] in w.commands && w.commands[j] in w.commands;
  }

  // ---------------------------------------------------------------------------------------------
  // Only forward
  // ---------------------------------------------------------------------------------------------

  function Rank(s: State): nat {
    match s
    case Queued => 0
    case Running => 1
    case _ => 2
  }

  /** From one file of a job to a later one: never back, and an ended job stays as it is. */
  predicate Forward(before: Job, after: Job) {
    && Rank(before.state) <= Rank(after.state)
    && (Terminal(before.state) ==> after == before)
    && after.action == before.action && after.number == before.number
  }

  lemma SubjectIsLive(w: World, step: Step, id: Id)
    requires Inv(w) && Enabled(w, step) && Subject(w, step) == Some(id) && id in w.files
    ensures !Terminal(w.files[id].state) && !step.Submit?
  {
    hide Listing;
  }

  lemma StepForward(w: World, step: Step, id: Id)
    requires Inv(w) && Enabled(w, step) && id in w.files && id in Apply(w, step).files
    ensures Forward(w.files[id], Apply(w, step).files[id])
  {
    hide Listing, OldestQueued, Apply, HoldsToken, Inv, Enabled;
    StepMoves(w, step);
    if Subject(w, step) == Some(id) {
      SubjectIsLive(w, step, id);
      if step.Claim? {
        ClaimIsOfQueued(w, id, step.listed);
      }
    }
    assert Moved(w, step, id, w.files[id], Apply(w, step).files[id]);
  }

  /** A removed job does not come back. */
  lemma {:induction false} GoneForGood(trace: seq<World>, steps: seq<Step>, m: nat, n: nat, id: Id)
    requires Run(trace, steps) && m <= n < |trace| && id in trace[m].numbers && id !in trace[m].files
    ensures id in trace[n].numbers && id !in trace[n].files
  {
    hide Apply, Listing, OldestQueued;
    if m < n {
      GoneForGood(trace, steps, m, n - 1, id);
      RunStep(trace, steps, n - 1);
      StepMoves(trace[n - 1], steps[n - 1]);
      SubmitNumbers(trace[n - 1], steps[n - 1]);
    }
  }

  lemma {:induction false} OnlyForward(trace: seq<World>, steps: seq<Step>, m: nat, n: nat, id: Id)
    requires Run(trace, steps) && m <= n < |trace| && id in trace[m].files && id in trace[n].files
    ensures Forward(trace[m].files[id], trace[n].files[id])
  {
    hide Enabled, Apply, Inv;
    if m < n {
      RunStep(trace, steps, n - 1);
      InvHolds(trace, steps, n - 1);
      if id in trace[n - 1].files {
        OnlyForward(trace, steps, m, n - 1, id);
        StepForward(trace[n - 1], steps[n - 1], id);
      } else {
        Known(trace, steps, m, n - 1, id);
        GoneForGood(trace, steps, n - 1, n, id);
      }
    }
  }

  lemma RunStep(trace: seq<World>, steps: seq<Step>, i: nat)
    requires Run(trace, steps) && i < |steps|
    ensures Enabled(trace[i], steps[i]) && trace[i + 1] == Apply(trace[i], steps[i])
  {
  }

  lemma {:induction false} Known(trace: seq<World>, steps: seq<Step>, m: nat, n: nat, id: Id)
    requires Run(trace, steps) && m <= n < |trace| && id in trace[m].files
    ensures id in trace[n].numbers
  {
    hide Apply, Enabled, Inv;
    if m < n {
      Known(trace, steps, m, n - 1, id);
      RunStep(trace, steps, n - 1);
      SubmitNumbers(trace[n - 1], steps[n - 1]);
    } else {
      InvHolds(trace, steps, m);
      InvParts(trace[m]);
    }
  }

  // ---------------------------------------------------------------------------------------------
  // The token
  // ---------------------------------------------------------------------------------------------

  /** The job that the worker is about to end. */
  predicate Due(w: World, id: Id) {
    w.worker == Finishing(id) || w.worker == Reaping(Some(id))
  }

  /** No ended job has its token. */
  predicate Clean(w: World) {
    forall id | id in w.files && Terminal(w.files[id].state) :: !HoldsToken(w.files[id])
  }

  /** The job whose scrub fails in a step. */
  function FailedFor(w: World, step: Step): Option<Id> {
    match step
    case ScrubFails => if w.worker.Busy? then Some(w.worker.id) else None
    case ReapScrubFails => if w.worker.Noted? then Some(w.worker.id) else None
    case _ => None
  }

  /** A job becomes due only by its scrub, done or failed, and then nothing happens but submissions until the worker goes on. */
  lemma DueOrigin(w: World, step: Step, id: Id)
    requires Enabled(w, step) && id in Apply(w, step).files && Due(Apply(w, step), id)
    ensures !HoldsToken(Apply(w, step).files[id]) || FailedFor(w, step) == Some(id) || (step.Submit? && Due(w, id))
  {
    hide Listing, OldestQueued, Scrubbed, HoldsToken, Capped;
    match step
    case Scrub => ScrubKeeps(w.files[w.worker.id]);
    case ReapScrub => ScrubKeeps(w.files[w.worker.id]);
    case _ =>
  }

  lemma SubmittedIsNew(w: World, step: Step)
    requires Inv(w) && Enabled(w, step) && step.Submit?
    ensures step.id !in w.files && !Due(w, step.id)
    ensures step.id in Apply(w, step).files && Apply(w, step).files[step.id].state.Queued?
  {
  }

  /** A job that holds its token when it is ended was due, and held it before. */
  lemma EndedWithToken(w: World, step: Step, id: Id)
    requires Inv(w) && Enabled(w, step) && id in Apply(w, step).files
    requires Terminal(Apply(w, step).files[id].state) && HoldsToken(Apply(w, step).files[id])
    ensures id in w.files && HoldsToken(w.files[id])
    ensures Terminal(w.files[id].state) || (Due(w, id) && (step.Finish? || step.ReapFinish?))
  {
    hide Apply, Listing, OldestQueued, HoldsToken, Inv;
    StepMoves(w, step);
    if step.Submit? {
      SubmittedIsNew(w, step);
    }
    assert id in w.files;
    assert Moved(w, step, id, w.files[id], Apply(w, step).files[id]);
  }

  /** Between a failed scrub and the end of the job there are only submissions. */
  predicate Strands(trace: seq<World>, steps: seq<Step>, m: nat, n: nat)
    requires |trace| == |steps| + 1
  {
    && m < n < |steps|
    && (var id := FailedFor(trace[m], steps[m]);
        id.Some? && id.value in trace[m].files && HoldsToken(trace[m].files[id.value]))
    && (steps[n].Finish? || steps[n].ReapFinish?)
    && forall k | m < k < n :: steps[k].Submit?
  }

  /** A job that is due and holds its token owes it to a failed scrub. */
  lemma {:induction false} DueWithToken(trace: seq<World>, steps: seq<Step>, k: nat, id: Id) returns (m: nat)
    requires Run(trace, steps) && k < |trace| && Due(trace[k], id) && id in trace[k].files && HoldsToken(trace[k].files[id])
    ensures m < k && FailedFor(trace[m], steps[m]) == Some(id) && id in trace[m].files && HoldsToken(trace[m].files[id])
    ensures forall j | m < j < k :: steps[j].Submit?
  {
    hide Enabled, Apply, Inv, HoldsToken, FailedFor;
    assert k > 0;
    RunStep(trace, steps, k - 1);
    InvHolds(trace, steps, k - 1);
    var w, step := trace[k - 1], steps[k - 1];
    DueOrigin(w, step, id);
    HeldBefore(w, step, id);
    if FailedFor(w, step) == Some(id) {
      m := k - 1;
    } else {
      m := DueWithToken(trace, steps, k - 1, id);
    }
  }

  lemma HeldBefore(w: World, step: Step, id: Id)
    requires Inv(w) && Enabled(w, step) && id in Apply(w, step).files && HoldsToken(Apply(w, step).files[id])
    requires FailedFor(w, step) == Some(id) || Due(w, id)
    ensures id in w.files && HoldsToken(w.files[id])
  {
    hide HoldsToken, Apply, Listing, OldestQueued;
    StepMoves(w, step);
    if step.Submit? {
      SubmittedIsNew(w, step);
    }
    assert id in w.files;
    assert Moved(w, step, id, w.files[id], Apply(w, step).files[id]);
  }

  /** After a failed scrub and submissions alone the job is due, with its token. */
  lemma {:induction false} TokenStays(trace: seq<World>, steps: seq<Step>, m: nat, k: nat, id: Id)
    requires Run(trace, steps) && m < k < |trace| && FailedFor(trace[m], steps[m]) == Some(id)
    requires id in trace[m].files && HoldsToken(trace[m].files[id]) && forall j | m < j < k :: steps[j].Submit?
    ensures Due(trace[k], id) && id in trace[k].files && HoldsToken(trace[k].files[id])
  {
    hide Enabled, Apply, Inv, HoldsToken, FailedFor, Due;
    RunStep(trace, steps, k - 1);
    InvHolds(trace, steps, k - 1);
    if k == m + 1 {
      FailureLeavesToken(trace[m], steps[m], id);
    } else {
      TokenStays(trace, steps, m, k - 1, id);
      SubmissionLeavesToken(trace[k - 1], steps[k - 1], id);
    }
  }

  lemma FailureLeavesToken(w: World, step: Step, id: Id)
    requires Enabled(w, step) && FailedFor(w, step) == Some(id) && id in w.files && HoldsToken(w.files[id])
    ensures Due(Apply(w, step), id) && id in Apply(w, step).files && HoldsToken(Apply(w, step).files[id])
  {
    hide Capped, Holds;
  }

  lemma SubmissionLeavesToken(w: World, step: Step, id: Id)
    requires Inv(w) && Enabled(w, step) && step.Submit? && Due(w, id) && id in w.files && HoldsToken(w.files[id])
    ensures Due(Apply(w, step), id) && id in Apply(w, step).files && HoldsToken(Apply(w, step).files[id])
  {
    hide HoldsToken;
  }

  lemma EndLeavesToken(w: World, step: Step, id: Id)
    requires Enabled(w, step) && (step.Finish? || step.ReapFinish?) && Due(w, id) && id in w.files && HoldsToken(w.files[id])
    ensures !Clean(Apply(w, step))
  {
    hide Holds;
    var next := Apply(w, step);
    assert id in next.files && Terminal(next.files[id].state) && HoldsToken(next.files[id]);
  }

  lemma {:induction false} CleanUpTo(trace: seq<World>, steps: seq<Step>, k: nat)
    requires Run(trace, steps) && k < |trace|
    ensures Clean(trace[k]) || exists m: nat, n: nat :: Strands(trace, steps, m, n)
  {
    hide Enabled, Apply, Inv, HoldsToken, Due, FailedFor;
    if k > 0 {
      CleanUpTo(trace, steps, k - 1);
      RunStep(trace, steps, k - 1);
      InvHolds(trace, steps, k - 1);
      if id :| id in trace[k].files && Terminal(trace[k].files[id].state) && HoldsToken(trace[k].files[id]) {
        EndedWithToken(trace[k - 1], steps[k - 1], id);
        if !Terminal(trace[k - 1].files[id].state) {
          var m := DueWithToken(trace, steps, k - 1, id);
          assert Strands(trace, steps, m, k - 1);
        }
      }
    }
  }

  /**
   In every run, whatever crashes and whatever fails: no ended job ever holds its token exactly if no
   job whose scrub failed while it held it is ended right after, with nothing but submissions between.
   A crash, or a failed last write, in between leaves a job that is reaped, and scrubbed, later.
   */
  lemma CleanIffNothingStranded(trace: seq<World>, steps: seq<Step>)
    requires Run(trace, steps)
    ensures (forall k | 0 <= k < |trace| :: Clean(trace[k])) <==> !exists m: nat, n: nat :: Strands(trace, steps, m, n)
  {
    hide Enabled, Apply, Inv, HoldsToken, FailedFor, Due, Clean;
    if m: nat, n: nat :| Strands(trace, steps, m, n) {
      var id := FailedFor(trace[m], steps[m]).value;
      TokenStays(trace, steps, m, n, id);
      RunStep(trace, steps, n);
      EndLeavesToken(trace[n], steps[n], id);
    } else {
      forall k | 0 <= k < |trace| ensures Clean(trace[k]) {
        CleanUpTo(trace, steps, k);
      }
    }
  }

  /** In particular, whatever crashes: as long as no scrub fails, no ended job holds its token. */
  lemma EndedJobsAreClean(trace: seq<World>, steps: seq<Step>, n: nat)
    requires Run(trace, steps) && n < |trace| && forall i | 0 <= i < |steps| :: FailedFor(trace[i], steps[i]).None?
    ensures Clean(trace[n])
  {
    hide Run, FailedFor, Clean;
    CleanIffNothingStranded(trace, steps);
  }

  /**
   Two runs in which the scrub of a configuration job fails: right away, or when the job is reaped
   after a crash. Up to the claim they are the same.
   */
  function Example(reaped: bool, i: nat): World {
    var job := Submitted("palwarden_config_save", Params(Some(map["KNOCK_TOKEN" := "secret"]), map[]), 1);
    var running := job.(state := Running);
    var orphan := Appended(running, ORPHANED);
    var last := ExampleLength(reaped);
    var file := if i <= 3 then job else if i < (if reaped then 7 else 6) then running
                else if i < last then orphan else Ended(if reaped then orphan else running, false, 1);
    var worker := if i <= 1 then Down else if i == 2 then Reaping(None) else if i == 3 then Idle else if i == 4 then Busy("a")
                  else if !reaped then (if i == 5 then Finishing("a") else Idle)
                  else if i == 5 then Down else if i == 7 then Noted("a") else if i == 8 then Reaping(Some("a")) else Reaping(None);
    World(if i == 0 then map[] else map["a" := file], worker, if i == 0 then map[] else map["a" := 1], if i < 4 then [] else ["a"], [])
  }

  function ExampleStep(reaped: bool, i: nat): Step {
    if i == 0 then Submit("a", "palwarden_config_save", Params(Some(map["KNOCK_TOKEN" := "secret"]), map[]), 1)
    else if i == 1 then Boot
    else if i == 2 then ReapDone
    else if i == 3 then Claim("a", ["a"])
    else if !reaped then (if i == 4 then ScrubFails else Finish(false, 1))
    else if i == 4 then Crash
    else if i == 5 then Boot
    else if i == 6 then ReapNote("a")
    else if i == 7 then ReapScrubFails
    else ReapFinish
  }

  function ExampleLength(reaped: bool): nat {
    if reaped then 9 else 6
  }

  lemma ExampleListing(reaped: bool)
    ensures Listing(Example(reaped, 3).files, ["a"]) && OldestQueued(Example(reaped, 3).files, ["a"], "a")
  {
    hide Appended;
  }

  lemma ExampleNext(reaped: bool, i: nat)
    requires i < ExampleLength(reaped)
    ensures Enabled(Example(reaped, i), ExampleStep(reaped, i))
    ensures Example(reaped, i + 1) == Apply(Example(reaped, i), ExampleStep(reaped, i))
  {
    hide Scrubbed, Appended, Listing, OldestQueued;
    ExampleListing(reaped);
  }

  lemma ExampleStrands(reaped: bool)
    ensures !Clean(Example(reaped, ExampleLength(reaped)))
  {
    hide Capped;
    var w := Example(reaped, ExampleLength(reaped));
    assert "a" in w.files && HoldsToken(w.files["a"]) && Terminal(w.files["a"].state);
  }

  /**
   The worker goes on when a last scrub fails, and so does the reaping of orphans when it cannot read
   the job; then the token can stay for as long as the file does.
   */
  lemma FailedScrubStrandsTheToken(reaped: bool)
    ensures exists trace: seq<World>, steps: seq<Step> ::
              Run(trace, steps) && !Clean(trace[|trace| - 1]) && (reaped ==> forall i | 0 <= i < |steps| :: !steps[i].ScrubFails?)
  {
    hide Enabled, Apply, Example, Clean;
    var n := ExampleLength(reaped);
    var trace := seq(n + 1, i requires 0 <= i <= n => Example(reaped, i));
    var steps := seq(n, i requires 0 <= i < n => ExampleStep(reaped, i));
    assert Example(reaped, 0) == INITIAL by {
      ExampleStart(reaped);
    }
    forall i | 0 <= i < n ensures Enabled(trace[i], steps[i]) && trace[i + 1] == Apply(trace[i], steps[i]) {
      ExampleNext(reaped, i);
    }
    ExampleStrands(reaped);
    assert Run(trace, steps);
  }

  lemma ExampleStart(reaped: bool)
    ensures Example(reaped, 0) == INITIAL
  {
  }

  // ---------------------------------------------------------------------------------------------
  // Order
  // ---------------------------------------------------------------------------------------------

  /** Claims in the order of submission, and nothing submitted before a claimed job is left unclaimed. */
  predicate Orderly(numbers: map<Id, nat>, claims: seq<Id>) {
    && (forall id | id in claims :: id in numbers)
    && (forall i, j | 0 <= i < j < |claims| :: numbers[claims[i]] < numbers[claims[j]])
    && forall id, c | id in numbers && id !in claims && c in claims :: numbers[c] < numbers[id]
  }

  /** The order, and numbers that tell all submissions apart. */
  predicate InOrder(w: World) {
    Orderly(w.numbers, w.claims) && forall a, b | a in w.numbers && b in w.numbers && a != b :: w.numbers[a] != w.numbers[b]
  }

  /** A submission whose number is greater than all before it. */
  predicate Clocked(w: World, step: Step) {
    step.Submit? ==> forall other | other in w.numbers :: w.numbers[other] < step.number
  }

  lemma OneMoreClaim(numbers: map<Id, nat>, claims: seq<Id>, id: Id)
    requires Orderly(numbers, claims) && id in numbers && id !in claims
    requires forall other | other in numbers && other !in claims && other != id :: numbers[id] < numbers[other]
    ensures Orderly(numbers, claims + [id])
  {
  }

  lemma ClaimInOrder(w: World, id: Id, listed: seq<Id>)
    requires Inv(w) && InOrder(w) && Enabled(w, Claim(id, listed)) && |w.files| <= LIST_LIMIT
    ensures InOrder(Apply(w, Claim(id, listed)))
  {
    hide Apply, Listing, Orderly, Enabled, AtWork;
    SubmitNumbers(w, Claim(id, listed));
    ClaimIsOfQueued(w, id, listed);
    forall other | other in w.numbers && other !in w.claims && other != id ensures w.numbers[id] < w.numbers[other] {
      OldestIsFirst(w, id, listed, other);
    }
    OneMoreClaim(w.numbers, w.claims, id);
  }

  lemma OldestIsFirst(w: World, id: Id, listed: seq<Id>, other: Id)
    requires Inv(w) && InOrder(w) && Enabled(w, Claim(id, listed)) && |w.files| <= LIST_LIMIT
    requires other in w.numbers && other !in w.claims && other != id
    ensures id in w.numbers && w.numbers[id] < w.numbers[other]
  {
    hide Listing, Orderly;
    ListingIsComplete(w.files, listed);
    assert other in listed;
  }

  lemma OneMoreSubmission(numbers: map<Id, nat>, claims: seq<Id>, id: Id, number: nat)
    requires Orderly(numbers, claims) && id !in numbers && forall other | other in numbers :: numbers[other] < number
    ensures Orderly(numbers[id := number], claims)
  {
  }

  lemma StepInOrder(w: World, step: Step)
    requires Inv(w) && InOrder(w) && Enabled(w, step) && Clocked(w, step) && |w.files| <= LIST_LIMIT
    ensures InOrder(Apply(w, step))
  {
    hide Listing, OldestQueued, Apply, Inv, Orderly;
    SubmitNumbers(w, step);
    match step
    case Claim(id, listed) => ClaimInOrder(w, id, listed);
    case Submit(id, _, _, number) => OneMoreSubmission(w.numbers, w.claims, id, number);
    case _ =>
  }

  /** With increasing numbers, and at most 1000 job files, jobs are claimed exactly in the order in which they were submitted. */
  lemma {:induction false} ClaimsFollowSubmission(trace: seq<World>, steps: seq<Step>, n: nat)
    requires Run(trace, steps) && n < |trace| && forall i | 0 <= i < n :: |trace[i].files| <= LIST_LIMIT && Clocked(trace[i], steps[i])
    ensures InOrder(trace[n])
  {
    hide Enabled, Apply, Inv;
    if n > 0 {
      ClaimsFollowSubmission(trace, steps, n - 1);
      InvHolds(trace, steps, n - 1);
      StepInOrder(trace[n - 1], steps[n - 1]);
    }
  }
}
