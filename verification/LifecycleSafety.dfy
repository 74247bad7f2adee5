/**
 What every run of the lifecycle protocol keeps: maintenance inhibits wakes, an interrupted
 transaction stays closed until an acknowledgement, and a wake fence covers the whole time between
 admission and execution.
 */
module LifecycleSafety {
  import opened Wrappers
  import opened LifecycleMarker
  import opened LifecycleProtocol

  // ---------------------------------------------------------------------------------------------
  // While a transaction may still change the service, the marker inhibits wakes
  // ---------------------------------------------------------------------------------------------

  ghost predicate Guarded(s: State) {
    forall p | p in s.procs :: s.procs[p].inTxn ==> s.file.Present? && s.file.marker.status != Idle
  }

  ghost predicate AllGuarded(trace: seq<State>) {
    forall k | 0 <= k < |trace| :: Guarded(trace[k])
  }

  /** A recorded success leaves nobody of the transaction behind. */
  ghost predicate CompletesAlone(s: State, step: Step) {
    step.Complete? && step.success && s.file.Has(Active) ==>
      forall q | q in s.procs && q != step.p :: !s.procs[q].inTxn
  }

  ghost predicate AllCompleteAlone(trace: seq<State>, run: seq<Step>)
    requires |trace| == |run| + 1
  {
    forall k | 0 <= k < |run| :: CompletesAlone(trace[k], run[k])
  }

  /** The state file exists and nobody is about to create it. */
  predicate Seeded(s: State) {
    s.file != Missing && forall p | p in s.procs :: !AboutToCreate(s.procs[p].phase)
  }

  predicate AboutToCreate(phase: Phase) {
    phase.InitCreate? || phase.Create?
  }

  lemma CreatorOrigin(s: State, step: Step, q: Pid)
    requires Enabled(s, step) && Acts(step, q) && q in Apply(s, step).procs && AboutToCreate(Apply(s, step).procs[q].phase)
    ensures s.file == Missing || (q in s.procs && AboutToCreate(s.procs[q].phase))
  {
    hide After;
  }

  lemma FileStays(s: State, step: Step)
    requires Enabled(s, step) && s.file != Missing
    ensures Apply(s, step).file != Missing
  {
  }

  lemma SeededStep(s: State, step: Step)
    requires Seeded(s) && Enabled(s, step)
    ensures Seeded(Apply(s, step))
  {
    hide Enabled, Apply, Acts;
    var s' := Apply(s, step);
    FileStays(s, step);
    forall q | q in s'.procs ensures !AboutToCreate(s'.procs[q].phase) {
      if AboutToCreate(s'.procs[q].phase) {
        if Acts(step, q) {
          CreatorOrigin(s, step, q);
        } else {
          OthersStay(s, step, q);
        }
      }
    }
  }

  lemma {:induction false} SeededHolds(trace: seq<State>, run: seq<Step>, k: nat)
    requires Run(trace, run) && k <= |run| && trace[0].file != Missing
    ensures Seeded(trace[k])
  {
    if k > 0 {
      SeededHolds(trace, run, k - 1);
      assert Next(trace[k - 1], run[k - 1], trace[k]);
      SeededStep(trace[k - 1], run[k - 1]);
    }
  }

  /** A wake, an initialiser or a beginning owner under the lock shares it with no open transaction. */
  lemma PoisedAlone(s: State, p: Pid)
    requires Inv(s) && p in s.procs
    requires s.procs[p].fd.Some? && s.procs[p].parent == None && !s.procs[p].phase.Owning()
    ensures forall q | q in s.procs :: !s.procs[q].inTxn
  {
    assert forall q | q in s.procs :: Shaped(s.procs[q]) && RootedPair(s, p, q);
  }

  predicate Inhibited(file: StateFile) {
    file.Present? && file.marker.status != Idle
  }

  /** How a process comes to belong to a transaction. */
  lemma TxnOrigin(s: State, step: Step, q: Pid)
    requires Enabled(s, step) && q in Apply(s, step).procs && Apply(s, step).procs[q].inTxn
    ensures (q in s.procs && s.procs[q].inTxn) || (step.Fork? && s.procs[step.p].inTxn) || Inhibited(Apply(s, step).file)
    ensures step.Complete? ==> q != step.p
  {
  }

  /** How a marker ceases to inhibit. */
  lemma InhibitionEnds(s: State, step: Step)
    requires Enabled(s, step) && Inhibited(s.file) && !Inhibited(Apply(s, step).file)
    ensures step.AckPublish? || step.WakeRotate? || step.InitPublish? || step.EnsureCreate?
            || (step.Complete? && step.success && s.file.Has(Active))
  {
  }

  lemma PublisherAlone(s: State, step: Step)
    requires Inv(s) && Enabled(s, step) && (step.WakeRotate? || step.InitPublish? || step.AckPublish?)
    ensures forall q | q in s.procs :: !s.procs[q].inTxn
  {
    hide Apply;
    assert Shaped(s.procs[step.p]);
    PoisedAlone(s, step.p);
  }

  lemma NoCreation(s: State, step: Step)
    requires Seeded(s) && Enabled(s, step)
    ensures !step.EnsureCreate?
  {
  }

  lemma GuardedStep(s: State, step: Step)
    requires Inv(s) && Seeded(s) && Guarded(s) && Enabled(s, step) && CompletesAlone(s, step)
    ensures Guarded(Apply(s, step))
  {
    hide Enabled, Apply, Inv, Seeded;
    var s' := Apply(s, step);
    NoCreation(s, step);
    forall q | q in s'.procs && s'.procs[q].inTxn ensures Inhibited(s'.file) {
      TxnOrigin(s, step, q);
      if !Inhibited(s'.file) {
        var x := if q in s.procs && s.procs[q].inTxn then q else step.p;
        ForkedFrom(s, step);
        InhibitionEnds(s, step);
        if step.WakeRotate? || step.InitPublish? || step.AckPublish? {
          PublisherAlone(s, step);
        }
      }
    }
  }

  lemma ForkedFrom(s: State, step: Step)
    requires Enabled(s, step)
    ensures step.Fork? ==> step.p in s.procs
  {
  }

  /** A success recorded over a surviving controller of the transaction turns the marker idle under it. */
  lemma UnguardedStep(s: State, step: Step)
    requires Enabled(s, step) && !CompletesAlone(s, step)
    ensures !Guarded(Apply(s, step))
  {
    var q :| q in s.procs && q != step.p && s.procs[q].inTxn;
    assert q in Apply(s, step).procs && Apply(s, step).procs[q].inTxn;
  }

  /**
   Once the state file exists, the marker is never idle while a controller of an open transaction is
   left, exactly in the runs in which no success is recorded over a surviving controller.
   */
  lemma InhibitedIffCompletedAlone(trace: seq<State>, run: seq<Step>)
    requires Run(trace, run) && trace[0].file != Missing
    ensures AllGuarded(trace) <==> AllCompleteAlone(trace, run)
  {
    if AllGuarded(trace) {
      forall k | 0 <= k < |run| ensures CompletesAlone(trace[k], run[k]) {
        assert Next(trace[k], run[k], trace[k + 1]) && Guarded(trace[k + 1]);
        if !CompletesAlone(trace[k], run[k]) {
          UnguardedStep(trace[k], run[k]);
        }
      }
    }
    if AllCompleteAlone(trace, run) {
      forall k | 0 <= k < |trace| ensures Guarded(trace[k]) {
        GuardedHolds(trace, run, k);
      }
    }
  }

  lemma {:induction false} GuardedHolds(trace: seq<State>, run: seq<Step>, k: nat)
    requires Run(trace, run) && trace[0].file != Missing && AllCompleteAlone(trace, run) && k <= |run|
    ensures Guarded(trace[k])
  {
    if k > 0 {
      GuardedHolds(trace, run, k - 1);
      InvHolds(trace, run, k - 1);
      SeededHolds(trace, run, k - 1);
      assert Next(trace[k - 1], run[k - 1], trace[k]) && CompletesAlone(trace[k - 1], run[k - 1]);
      GuardedStep(trace[k - 1], run[k - 1]);
    }
  }

  // ---------------------------------------------------------------------------------------------
  // Two runs that do turn the marker idle under a live transaction
  // ---------------------------------------------------------------------------------------------

  lemma FreshAbove(used: set<nat>) returns (n: nat)
    ensures forall m | m in used :: m < n
  {
    if used == {} {
      n := 0;
    } else {
      var m :| m in used;
      var rest := FreshAbove(used - {m});
      n := if rest > m then rest else m + 1;
      assert forall x | x in used :: x == m || x in used - {m};
    }
  }

  /** A run from `s0` to `s`, in which every recorded success is recorded alone if `alone`. */
  ghost predicate Leads(s0: State, trace: seq<State>, run: seq<Step>, s: State, alone: bool) {
    Run(trace, run) && trace[0] == s0 && trace[|run|] == s && (alone ==> AllCompleteAlone(trace, run))
  }

  lemma Begin(s0: State) returns (trace: seq<State>, run: seq<Step>)
    requires Initial(s0)
    ensures Leads(s0, trace, run, s0, true)
  {
    trace, run := [s0], [];
  }

  /** Extends a run by one enabled step. */
  lemma Extend(s0: State, trace: seq<State>, run: seq<Step>, s: State, alone: bool, step: Step) returns (trace': seq<State>, run': seq<Step>)
    requires Leads(s0, trace, run, s, alone) && Enabled(s, step) && (alone ==> CompletesAlone(s, step))
    ensures Leads(s0, trace', run', Apply(s, step), alone)
    ensures |run'| == |run| + 1 && |trace| == |run| + 1 && |trace'| == |run'| + 1
    ensures trace' == trace + [Apply(s, step)] && run' == run + [step] && trace[|run|] == s
  {
    hide Enabled, Apply;
    run' := run + [step];
    trace' := trace + [Apply(s, step)];
    forall k | 0 <= k < |run'| ensures Next(trace'[k], run'[k], trace'[k + 1]) {
      if k < |run| {
        assert Next(trace[k], run[k], trace[k + 1]);
      }
    }
  }

  function Owner(d: Description): Proc {
    Proc(Controller(true, None), Mutating, Some(d), None, false, true)
  }

  function Entered(p: Pid, d: Description, procs: map<Pid, Proc>, phase: Phase): map<Pid, Proc> {
    procs[p := Proc(Controller(true, None), phase, Some(d), None, false, false)]
  }

  lemma TakeLock(s0: State, trace: seq<State>, run: seq<Step>, s: State, alone: bool, p: Pid, d: Description)
      returns (trace': seq<State>, run': seq<Step>)
    requires Leads(s0, trace, run, s, alone) && p !in s.procs && s.lock == None && d !in s.issued
    ensures Leads(s0, trace', run', State(s.file, s.drawn, Some(d), s.issued + {d}, Entered(p, d, s.procs, Ensure)), alone)
  {
    hide Leads, LifecycleMarker.After;
    trace', run' := Extend(s0, trace, run, s, alone, Enter(p, Controller(true, None)));
    var next := Apply(s, Enter(p, Controller(true, None)));
    trace', run' := Extend(s0, trace', run', next, alone, Acquire(p, d));
    assert Apply(next, Acquire(p, d)).procs == Entered(p, d, s.procs, Ensure);
  }

  lemma LooksIdle(s: State, p: Pid, d: Description, procs: map<Pid, Proc>)
    requires s.procs == Entered(p, d, procs, Ensure) && s.file.Has(Idle)
    ensures var s2 := s.(procs := Entered(p, d, procs, Inspect));
            && Enabled(s, EnsureLook(p)) && Apply(s, EnsureLook(p)) == s2
            && Enabled(s2, BeginLook(p)) && Apply(s2, BeginLook(p)) == s.(procs := Entered(p, d, procs, Publish))
  {
    hide After;
    var s2 := s.(procs := Entered(p, d, procs, Inspect));
    assert Apply(s, EnsureLook(p)).procs == s2.procs;
    assert Apply(s2, BeginLook(p)).procs == Entered(p, d, procs, Publish);
  }

  lemma Publishes(s: State, p: Pid, d: Description, procs: map<Pid, Proc>, g: Generation)
    requires s.procs == Entered(p, d, procs, Publish) && s.file.Has(Idle) && g !in s.drawn
    ensures Enabled(s, BeginPublish(p, g))
    ensures Apply(s, BeginPublish(p, g)) == s.(file := Present(Marker(Active, g, None)), drawn := s.drawn + {g}, procs := procs[p := Owner(d)])
  {
    assert Apply(s, BeginPublish(p, g)).procs == procs[p := Owner(d)];
  }

  /** From an idle marker and a free lock, worker `p` opens a transaction undisturbed. */
  lemma OpenTransaction(s0: State, trace: seq<State>, run: seq<Step>, s: State, alone: bool, p: Pid, d: Description, g: Generation)
      returns (trace': seq<State>, run': seq<Step>)
    requires Leads(s0, trace, run, s, alone)
    requires p !in s.procs && s.lock == None && s.file.Has(Idle) && g !in s.drawn && d !in s.issued
    ensures Leads(s0, trace', run', State(Present(Marker(Active, g, None)), s.drawn + {g}, Some(d), s.issued + {d}, s.procs[p := Owner(d)]), alone)
  {
    hide Leads, Enabled, Apply, Entered, Owner;
    trace', run' := TakeLock(s0, trace, run, s, alone, p, d);
    var s1 := State(s.file, s.drawn, Some(d), s.issued + {d}, Entered(p, d, s.procs, Ensure));
    LooksIdle(s1, p, d, s.procs);
    trace', run' := Extend(s0, trace', run', s1, alone, EnsureLook(p));
    trace', run' := Extend(s0, trace', run', s1.(procs := Entered(p, d, s.procs, Inspect)), alone, BeginLook(p));
    var s3 := s1.(procs := Entered(p, d, s.procs, Publish));
    Publishes(s3, p, d, s.procs, g);
    trace', run' := Extend(s0, trace', run', s3, alone, BeginPublish(p, g));
  }

  const OUTSIDE := Proc(Initializer, Waiting, None, None, false, false)
  const CREATING := Proc(Initializer, InitCreate, None, None, false, false)

  /** An initialiser finds no state file. */
  lemma FindMissing(s0: State, trace: seq<State>, run: seq<Step>, s: State, p: Pid) returns (trace': seq<State>, run': seq<Step>)
    requires Leads(s0, trace, run, s, true) && s.file == Missing && p !in s.procs
    ensures Leads(s0, trace', run', s.(procs := s.procs[p := CREATING]), true)
    ensures |run'| == |run| + 2
  {
    hide Leads, LifecycleMarker.After;
    trace', run' := Extend(s0, trace, run, s, true, Enter(p, Initializer));
    var next := Apply(s, Enter(p, Initializer));
    trace', run' := Extend(s0, trace', run', next, true, EnsureLook(p));
    assert Apply(next, EnsureLook(p)).procs == s.procs[p := CREATING];
  }

  lemma TwoCreators(s0: State, g: Generation) returns (trace: seq<State>, run: seq<Step>)
    requires Initial(s0) && s0.file == Missing && g !in s0.drawn
    ensures Leads(s0, trace, run, s0.(file := Present(Marker(Idle, g, None)), drawn := s0.drawn + {g}, procs := map[0 := CREATING, 2 := OUTSIDE]), true)
  {
    hide Leads, LifecycleMarker.After;
    trace, run := Begin(s0);
    trace, run := FindMissing(s0, trace, run, s0, 0);
    var s1 := s0.(procs := map[0 := CREATING]);
    trace, run := FindMissing(s0, trace, run, s1, 2);
    var s2 := s0.(procs := map[0 := CREATING, 2 := CREATING]);
    assert s1.(procs := s1.procs[2 := CREATING]) == s2;
    trace, run := Extend(s0, trace, run, s2, true, EnsureCreate(2, g));
    assert Apply(s2, EnsureCreate(2, g)).procs == map[0 := CREATING, 2 := OUTSIDE];
  }

  /**
   With no state file yet, runtime initialisation may find it missing, lose the race for the lock to
   a controller, and then create the idle marker over the controller's active one.
   */
  lemma CreationRace(s0: State) returns (trace: seq<State>, run: seq<Step>)
    requires Initial(s0) && s0.file == Missing
    ensures Run(trace, run) && trace[0] == s0
    ensures AllCompleteAlone(trace, run)
    ensures !AllGuarded(trace)
  {
    var g := FreshAbove(s0.drawn);
    var d := FreshAbove(s0.issued);
    trace, run := TwoCreators(s0, g);
    var s1 := s0.(file := Present(Marker(Idle, g, None)), drawn := s0.drawn + {g}, procs := map[0 := CREATING, 2 := OUTSIDE]);
    trace, run := OpenTransaction(s0, trace, run, s1, true, 1, d, g + 1);
    var s2 := State(Present(Marker(Active, g + 1, None)), s1.drawn + {g + 1}, Some(d), s1.issued + {d}, s1.procs[1 := Owner(d)]);
    CreatesIdle(s2, 0, g + 2, 1);
    trace, run := Extend(s0, trace, run, s2, true, EnsureCreate(0, g + 2));
    assert !Guarded(trace[|run|]);
  }

  lemma CreatesIdle(s: State, p: Pid, g: Generation, q: Pid)
    requires At(s, p, InitCreate) && g !in s.drawn && q in s.procs && s.procs[q].inTxn && p != q
    ensures Enabled(s, EnsureCreate(p, g)) && CompletesAlone(s, EnsureCreate(p, g)) && !Guarded(Apply(s, EnsureCreate(p, g)))
  {
    var s' := Apply(s, EnsureCreate(p, g));
    assert q in s'.procs && s'.procs[q].inTxn && s'.file.Has(Idle);
  }

  /**
   A nested controller that dies between its own start of another one and its exit leaves that one
   behind, and its owner, which waited for its own child only, may then record success.
   */
  lemma OrphanedBorrower(s0: State) returns (trace: seq<State>, run: seq<Step>)
    requires Initial(s0) && s0.file.Has(Idle)
    ensures Run(trace, run) && trace[0] == s0
    ensures !Guarded(trace[|run|]) && trace[|run|].lock.Some?
  {
    var g := FreshAbove(s0.drawn);
    var d := FreshAbove(s0.issued);
    trace, run := Begin(s0);
    trace, run := OpenTransaction(s0, trace, run, s0, false, 1, d, g) by {
      assert Leads(s0, trace, run, s0, false);
    }
    var s1 := State(Present(Marker(Active, g, None)), s0.drawn + {g}, Some(d), s0.issued + {d}, map[1 := Owner(d)]);
    assert s0.procs[1 := Owner(d)] == map[1 := Owner(d)];
    trace, run := Orphan(s0, trace, run, s1, d);
    var s2 := s1.(procs := map[1 := Owner(d), 3 := Nested(d, 2)]);
    SucceedsOver(s2, 1, 3, g + 1);
    trace, run := Extend(s0, trace, run, s2, false, Complete(1, true, g + 1));
  }

  function Nested(d: Description, parent: Pid): Proc {
    Proc(Controller(true, None), Execed, Some(d), Some(parent), false, true)
  }

  lemma SucceedsOver(s: State, p: Pid, q: Pid, g: Generation)
    requires s.file.Has(Active) && s.lock.Some? && At(s, p, Mutating) && Childless(s, p) && g !in s.drawn
    requires q in s.procs && s.procs[q].inTxn && p != q
    ensures Enabled(s, Complete(p, true, g)) && !Guarded(Apply(s, Complete(p, true, g))) && Apply(s, Complete(p, true, g)).lock.Some?
  {
    var s' := Apply(s, Complete(p, true, g));
    assert q in s'.procs && s'.procs[q].inTxn && s'.file.Has(Idle);
  }

  lemma Nests(s: State, d: Description)
    requires s.procs == map[1 := Owner(d)]
    ensures var s1 := s.(procs := map[1 := Owner(d), 2 := Nested(d, 1)]);
            && Enabled(s, Fork(1, 2)) && Apply(s, Fork(1, 2)) == s1
            && Enabled(s1, Enroll(2)) && Apply(s1, Enroll(2)) == s.(procs := map[1 := Owner(d), 2 := Nested(d, 1).(phase := Borrowing)])
  {
    hide After;
    var s1 := s.(procs := map[1 := Owner(d), 2 := Nested(d, 1)]);
    assert Apply(s, Fork(1, 2)).procs == s1.procs;
    assert Apply(s1, Enroll(2)).procs == map[1 := Owner(d), 2 := Nested(d, 1).(phase := Borrowing)];
  }

  lemma NestsAndDies(s: State, d: Description)
    requires s.procs == map[1 := Owner(d), 2 := Nested(d, 1).(phase := Borrowing)] && s.lock == Some(d)
    ensures var s1 := s.(procs := map[1 := Owner(d), 2 := Nested(d, 1).(phase := Borrowing), 3 := Nested(d, 2)]);
            && Enabled(s, Fork(2, 3)) && Apply(s, Fork(2, 3)) == s1
            && Enabled(s1, Leave(2)) && Apply(s1, Leave(2)) == s.(procs := map[1 := Owner(d), 3 := Nested(d, 2)])
  {
    hide After;
    var s1 := s.(procs := map[1 := Owner(d), 2 := Nested(d, 1).(phase := Borrowing), 3 := Nested(d, 2)]);
    assert Apply(s, Fork(2, 3)).procs == s1.procs;
    assert Close(s1, 2).procs == map[1 := Owner(d), 3 := Nested(d, 2)];
    assert Close(s1, 2).procs[1].fd == s.lock;
  }

  lemma Orphan(s0: State, trace: seq<State>, run: seq<Step>, s: State, d: Description) returns (trace': seq<State>, run': seq<Step>)
    requires Leads(s0, trace, run, s, false) && s.procs == map[1 := Owner(d)] && s.lock == Some(d)
    ensures Leads(s0, trace', run', s.(procs := map[1 := Owner(d), 3 := Nested(d, 2)]), false)
  {
    hide Leads, Enabled, Apply, Owner, Nested;
    Nests(s, d);
    trace', run' := Extend(s0, trace, run, s, false, Fork(1, 2));
    trace', run' := Extend(s0, trace', run', s.(procs := map[1 := Owner(d), 2 := Nested(d, 1)]), false, Enroll(2));
    var s2 := s.(procs := map[1 := Owner(d), 2 := Nested(d, 1).(phase := Borrowing)]);
    NestsAndDies(s2, d);
    trace', run' := Extend(s0, trace', run', s2, false, Fork(2, 3));
    var s3 := s.(procs := map[1 := Owner(d), 2 := Nested(d, 1).(phase := Borrowing), 3 := Nested(d, 2)]);
    trace', run' := Extend(s0, trace', run', s3, false, Leave(2));
  }

  /** Whether the state file exists at the start decides whether inhibition can be trusted in all runs. */
  lemma InhibitionNeedsTheMarker(s0: State)
    requires Initial(s0)
    ensures (forall trace: seq<State>, run: seq<Step> | Run(trace, run) && trace[0] == s0 && AllCompleteAlone(trace, run) :: AllGuarded(trace))
            <==> s0.file != Missing
  {
    if s0.file == Missing {
      var trace, run := CreationRace(s0);
    } else {
      forall trace: seq<State>, run: seq<Step> | Run(trace, run) && trace[0] == s0 && AllCompleteAlone(trace, run) ensures AllGuarded(trace) {
        InhibitedIffCompletedAlone(trace, run);
      }
    }
  }

  // ---------------------------------------------------------------------------------------------
  // Fail-closed recovery
  // ---------------------------------------------------------------------------------------------

  /** The marker is unsafe, or it is active and nobody is left who would record a completion. */
  ghost predicate Closed(s: State) {
    s.file.Has(Unsafe) || (s.file.Has(Active) && forall p | p in s.procs :: !Recorder(s.procs[p]))
  }

  /** How a process comes to be the one that will record a completion. */
  lemma RecorderOrigin(s: State, step: Step, q: Pid)
    requires AllShaped(s) && Enabled(s, step) && q in Apply(s, step).procs && Recorder(Apply(s, step).procs[q])
    ensures (q in s.procs && Recorder(s.procs[q])) || Apply(s, step).file.Has(Unsafe) || step.BeginPublish?
  {
    hide Recorder, Shaped;
    if Acts(step, q) {
      RecorderActor(s, step, q);
    } else {
      OthersStay(s, step, q);
    }
  }

  lemma RecorderActor(s: State, step: Step, q: Pid)
    requires Enabled(s, step) && Acts(step, q) && q in Apply(s, step).procs && Recorder(Apply(s, step).procs[q])
    requires step.p in s.procs ==> Shaped(s.procs[step.p])
    ensures (q in s.procs && Recorder(s.procs[q])) || Apply(s, step).file.Has(Unsafe) || step.BeginPublish?
  {
  }

  /** An unsafe marker yields to an acknowledgement only, an active one to those as well who publish an outcome. */
  lemma MarkerStays(s: State, step: Step)
    requires Enabled(s, step) && !step.AckPublish? && !step.EnsureCreate?
    ensures s.file.Has(Unsafe) ==> Apply(s, step).file.Has(Unsafe)
    ensures s.file.Has(Active) ==>
              Apply(s, step).file.Has(Active) || Apply(s, step).file.Has(Unsafe)
              || (step.Complete? && At(s, step.p, Mutating)) || (step.WakeRotate? && At(s, step.p, Waking))
              || (step.InitPublish? && At(s, step.p, InitRotate))
    ensures step.BeginPublish? ==> At(s, step.p, Publish)
  {
  }

  lemma ClosedStep(s: State, step: Step)
    requires Inv(s) && Seeded(s) && Closed(s) && Enabled(s, step) && !step.AckPublish?
    ensures Closed(Apply(s, step))
  {
    hide Enabled, Apply, Locked, Rooted, Drawn, Seeded, AllShaped;
    var s' := Apply(s, step);
    NoCreation(s, step);
    MarkerStays(s, step);
    if !s'.file.Has(Unsafe) {
      forall q | q in s'.procs ensures !Recorder(s'.procs[q]) {
        if Recorder(s'.procs[q]) {
          RecorderOrigin(s, step, q);
        }
      }
    }
  }

  lemma LosingStep(s: State, step: Step)
    requires Inv(s) && Enabled(s, step) && s.file.Has(Active)
    requires (step.Leave? || step.WriteFails?) && Recorder(s.procs[step.p])
    ensures Closed(Apply(s, step))
  {
    forall q | q in s.procs && Recorder(s.procs[q]) ensures q == step.p {
      assert Shaped(s.procs[q]) && Shaped(s.procs[step.p]);
      RootIsSole(s, q, step.p);
    }
  }

  /** The owner of an open transaction dies, or fails to record its completion: from then on the marker is closed. */
  lemma LosingTheOwnerCloses(trace: seq<State>, run: seq<Step>, k: nat)
    requires Run(trace, run) && k < |run| && trace[k].file.Has(Active)
    requires (run[k].Leave? || run[k].WriteFails?) && run[k].p in trace[k].procs && Recorder(trace[k].procs[run[k].p])
    ensures Closed(trace[k + 1])
  {
    InvHolds(trace, run, k);
    assert Next(trace[k], run[k], trace[k + 1]);
    LosingStep(trace[k], run[k]);
  }

  /** Generations are never forgotten, so a token drawn now differs from every marker there ever was. */
  lemma {:induction false} DrawnGrows(trace: seq<State>, run: seq<Step>, i: nat, j: nat)
    requires Run(trace, run) && i <= j <= |run|
    ensures trace[i].drawn <= trace[j].drawn
  {
    if i < j {
      DrawnGrows(trace, run, i, j - 1);
      assert Next(trace[j - 1], run[j - 1], trace[j]);
    }
  }

  predicate HoldsLock(s: State, p: Pid) {
    p in s.procs && s.lock.Some? && s.procs[p].fd == s.lock
  }

  lemma AckActor(s: State, step: Step, p: Pid)
    requires Enabled(s, step) && Acts(step, p) && At(Apply(s, step), p, AckWrite)
    ensures p in s.procs && s.procs[p].fd == Apply(s, step).procs[p].fd
    ensures At(s, p, AckWrite) || (At(s, p, AckLook) && step == AckInspect(p, true))
  {
    hide After;
  }

  lemma AckOrigin(s: State, step: Step, s': State, p: Pid)
    requires Enabled(s, step) && s' == Apply(s, step) && At(s', p, AckWrite)
    ensures p in s.procs && s.procs[p].fd == s'.procs[p].fd
    ensures At(s, p, AckWrite) || (At(s, p, AckLook) && step == AckInspect(p, true))
  {
    hide Enabled, Apply, Acts;
    if Acts(step, p) {
      AckActor(s, step, p);
    } else {
      OthersStay(s, step, p);
    }
  }

  lemma AckStep(s: State, step: Step, s': State, p: Pid)
    requires Inv(s) && Inv(s') && Enabled(s, step) && s' == Apply(s, step) && At(s', p, AckWrite)
    ensures At(s, p, AckWrite) || step == AckInspect(p, true)
    ensures HoldsLock(s, p) && s.lock == s'.lock
  {
    hide Enabled, Apply, Rooted, Unclobbered, Drawn;
    AckOrigin(s, step, s', p);
    assert Shaped(s.procs[p]) && LockedProc(s, p) && LockedProc(s', p);
  }

  /** A process that is about to publish an acknowledgement saw the service stopped, and has held the lock ever since. */
  lemma {:induction false} AckInspected(trace: seq<State>, run: seq<Step>, k: nat, p: Pid) returns (i: nat)
    requires Run(trace, run) && k <= |run| && At(trace[k], p, AckWrite)
    ensures i < k && run[i] == AckInspect(p, true)
    ensures forall m | i <= m < k :: HoldsLock(trace[m], p) && trace[m].lock == trace[k].lock
  {
    hide Enabled, Apply, Inv, At, HoldsLock;
    NobodyAtFirst(trace, run, p);
    assert k > 0 && Next(trace[k - 1], run[k - 1], trace[k]);
    InvHolds(trace, run, k - 1);
    InvHolds(trace, run, k);
    AckStep(trace[k - 1], run[k - 1], trace[k], p);
    if At(trace[k - 1], p, AckWrite) {
      i := AckInspected(trace, run, k - 1, p);
    } else {
      i := k - 1;
    }
  }

  lemma NobodyAtFirst(trace: seq<State>, run: seq<Step>, p: Pid)
    requires Run(trace, run)
    ensures !At(trace[0], p, AckWrite)
  {
  }

  /**
   An acknowledgement that lands held the lock from the moment it saw the service stopped until it
   published, and it installs a generation no marker of the run ever had.
   */
  lemma AckIsDeliberate(trace: seq<State>, run: seq<Step>, k: nat) returns (i: nat)
    requires Run(trace, run) && k < |run| && run[k].AckPublish? && trace[k + 1].file != trace[k].file
    ensures i < k && run[i] == AckInspect(run[k].p, true)
    ensures forall m | i <= m <= k :: HoldsLock(trace[m], run[k].p) && trace[m].lock == trace[k].lock
    ensures trace[k + 1].file.Has(Idle)
    ensures forall m | 0 <= m <= k :: trace[m].file.Present? ==> trace[m].file.marker.generation != trace[k + 1].file.marker.generation
  {
    assert Next(trace[k], run[k], trace[k + 1]);
    i := AckInspected(trace, run, k, run[k].p);
    InvHolds(trace, run, k);
    assert Shaped(trace[k].procs[run[k].p]);
    forall m | 0 <= m <= k && trace[m].file.Present?
      ensures trace[m].file.marker.generation != trace[k + 1].file.marker.generation
    {
      InvHolds(trace, run, m);
      DrawnGrows(trace, run, m, k);
    }
  }

  predicate Acknowledges(trace: seq<State>, run: seq<Step>, k: nat)
    requires |trace| == |run| + 1
  {
    k < |run| && run[k].AckPublish? && trace[k + 1].file != trace[k].file
  }

  lemma {:induction false} ClosedUntil(trace: seq<State>, run: seq<Step>, i: nat, j: nat)
    requires Run(trace, run) && trace[0].file != Missing && i <= j <= |run|
    requires Closed(trace[i])
    requires forall k | i <= k < j :: !Acknowledges(trace, run, k)
    ensures Closed(trace[j])
  {
    if i < j {
      ClosedUntil(trace, run, i, j - 1);
      InvHolds(trace, run, j - 1);
      SeededHolds(trace, run, j - 1);
      assert Next(trace[j - 1], run[j - 1], trace[j]) && !Acknowledges(trace, run, j - 1);
      if !run[j - 1].AckPublish? {
        ClosedStep(trace[j - 1], run[j - 1]);
      }
    }
  }

  /** A marker that was closed and is idle later was acknowledged in between. */
  ghost predicate ReopensOnlyByAck(trace: seq<State>, run: seq<Step>)
    requires |trace| == |run| + 1
  {
    forall i, j | 0 <= i <= j <= |run| && Closed(trace[i]) && trace[j].file.Has(Idle) ::
      exists k :: i <= k < j && Acknowledges(trace, run, k)
  }

  /**
   Fail-closed recovery: in every run that starts with a state file, only an acknowledgement leads
   from a closed marker back to an idle one (and `AckIsDeliberate` says what that takes). Without a
   state file a delayed creation can do it as well.
   */
  lemma FailClosedIffTheMarkerExists(s0: State)
    requires Initial(s0)
    ensures (forall trace: seq<State>, run: seq<Step> | Run(trace, run) && trace[0] == s0 :: ReopensOnlyByAck(trace, run)) <==> s0.file != Missing
  {
    if s0.file == Missing {
      var trace, run := DelayedCreation(s0);
    } else {
      forall trace: seq<State>, run: seq<Step> | Run(trace, run) && trace[0] == s0 ensures ReopensOnlyByAck(trace, run) {
        forall i, j | 0 <= i <= j <= |run| && Closed(trace[i]) && trace[j].file.Has(Idle)
          ensures exists k :: i <= k < j && Acknowledges(trace, run, k)
        {
          if forall k | i <= k < j :: !Acknowledges(trace, run, k) {
            ClosedUntil(trace, run, i, j);
          }
        }
      }
    }
  }

  lemma DelayedCreation(s0: State) returns (trace: seq<State>, run: seq<Step>)
    requires Initial(s0) && s0.file == Missing
    ensures Run(trace, run) && trace[0] == s0 && !ReopensOnlyByAck(trace, run)
  {
    hide Leads, AllCompleteAlone;
    var g := FreshAbove(s0.drawn);
    trace, run := Begin(s0);
    trace, run := FindMissing(s0, trace, run, s0, 0);
    var s1 := s0.(procs := map[0 := CREATING]);
    trace, run := Extend(s0, trace, run, s1, true, MarkUnsafe(None, g));
    var s2 := s1.(file := Present(Marker(Unsafe, g, None)), drawn := s0.drawn + {g});
    assert Apply(s1, MarkUnsafe(None, g)) == s2;
    var k := |run|;
    trace, run := Extend(s0, trace, run, s2, true, EnsureCreate(0, g + 1));
    var s3 := Apply(s2, EnsureCreate(0, g + 1));
    assert Closed(s2) && s3.file.Has(Idle) && trace[k] == s2 && trace[k + 1] == s3 && run[k] == EnsureCreate(0, g + 1);
    ReopenedByCreation(s0, trace, run, s3, k);
  }

  lemma ReopenedByCreation(s0: State, trace: seq<State>, run: seq<Step>, s: State, k: nat)
    requires Leads(s0, trace, run, s, true) && |run| == k + 1 && run[k].EnsureCreate? && Closed(trace[k]) && s.file.Has(Idle)
    ensures Run(trace, run) && trace[0] == s0 && !ReopensOnlyByAck(trace, run)
  {
    assert trace[k + 1].file.Has(Idle);
    assert forall m | k <= m < k + 1 :: !Acknowledges(trace, run, m);
  }

  // ---------------------------------------------------------------------------------------------
  // The wake fence
  // ---------------------------------------------------------------------------------------------

  predicate IdleAt(s: State, g: Generation) {
    s.file.Has(Idle) && s.file.marker.generation == g
  }

  /** Generation `g` has been drawn and can never be idle again. */
  predicate Spent(s: State, g: Generation) {
    g in s.drawn && (s.file.Present? && s.file.marker.generation == g ==> s.file.Has(Unsafe))
  }

  lemma SpentStep(s: State, step: Step, g: Generation)
    requires Drawn(s) && Enabled(s, step)
    ensures Spent(s, g) ==> Spent(Apply(s, step), g)
    ensures IdleAt(s, g) ==> IdleAt(Apply(s, step), g) || Spent(Apply(s, step), g)
  {
  }

  lemma {:induction false} SpentHolds(trace: seq<State>, run: seq<Step>, i: nat, j: nat, g: Generation)
    requires Run(trace, run) && i <= j <= |run| && Spent(trace[i], g)
    ensures Spent(trace[j], g)
  {
    if i < j {
      SpentHolds(trace, run, i, j - 1, g);
      InvHolds(trace, run, j - 1);
      assert Next(trace[j - 1], run[j - 1], trace[j]);
      SpentStep(trace[j - 1], run[j - 1], g);
    }
  }

  lemma {:induction false} IdleThroughout(trace: seq<State>, run: seq<Step>, i: nat, k: nat, j: nat, g: Generation)
    requires Run(trace, run) && i <= k <= j <= |run| && IdleAt(trace[i], g) && IdleAt(trace[j], g)
    ensures IdleAt(trace[k], g)
  {
    if i < k {
      IdleThroughout(trace, run, i, k - 1, j, g);
      InvHolds(trace, run, k - 1);
      assert Next(trace[k - 1], run[k - 1], trace[k]);
      SpentStep(trace[k - 1], run[k - 1], g);
      if Spent(trace[k], g) {
        SpentHolds(trace, run, k, j, g);
      }
    }
  }

  /** The steps that would let maintenance in, clear it, start the runtime over, or complete another wake. */
  predicate EndsTheFence(step: Step) {
    step.BeginEscalate? || step.BeginPublish? || step.AckPublish? || step.InitPublish? || step.WakeRotate? ||
    step.EnsureCreate? || step.MarkUnsafe?
  }

  lemma FenceStep(s: State, step: Step, g: Generation)
    requires Inv(s) && Enabled(s, step) && IdleAt(s, g) && IdleAt(Apply(s, step), g)
    ensures !EndsTheFence(step)
  {
  }

  lemma NobodyJoins(s: State, step: Step, p: Pid)
    requires Enabled(s, step) && s.file.Has(Idle) && !EndsTheFence(step)
    requires p in s.procs && p in Apply(s, step).procs && Apply(s, step).procs[p].inTxn
    ensures s.procs[p].inTxn
  {
  }

  /** A wake bound to generation `g` passes its re-check at step `j`. */
  predicate FencePasses(trace: seq<State>, run: seq<Step>, j: nat, g: Generation)
    requires |trace| == |run| + 1
  {
    && j < |run| && run[j].FenceCheck?
    && run[j].p in trace[j].procs && trace[j].procs[run[j].p].role == Waker(Some(g))
    && At(trace[j + 1], run[j].p, Starting)
  }

  /**
   A wake admitted against (idle, g) at point `i` that passes its re-check under the lock at step `j`
   met (idle, g) at every point between, with none of the steps that would have made it stale, and
   nobody joined a transaction meanwhile.
   */
  lemma WakeFence(trace: seq<State>, run: seq<Step>, i: nat, j: nat, g: Generation)
    requires Run(trace, run) && i <= j < |run| && IdleAt(trace[i], g) && FencePasses(trace, run, j, g)
    ensures HoldsLock(trace[j], run[j].p)
    ensures forall k | i <= k <= j :: IdleAt(trace[k], g)
    ensures forall k | i <= k < j :: !EndsTheFence(run[k])
    ensures forall k, p | i <= k < j && p in trace[k].procs && p in trace[k + 1].procs ::
              trace[k + 1].procs[p].inTxn ==> trace[k].procs[p].inTxn
  {
    assert Next(trace[j], run[j], trace[j + 1]);
    InvHolds(trace, run, j);
    assert Shaped(trace[j].procs[run[j].p]);
    forall k | i <= k <= j ensures IdleAt(trace[k], g) {
      IdleThroughout(trace, run, i, k, j, g);
    }
    forall k | i <= k < j
      ensures !EndsTheFence(run[k])
      ensures forall p | p in trace[k].procs && p in trace[k + 1].procs :: trace[k + 1].procs[p].inTxn ==> trace[k].procs[p].inTxn
    {
      assert Next(trace[k], run[k], trace[k + 1]);
      InvHolds(trace, run, k);
      FenceStep(trace[k], run[k], g);
      forall p | p in trace[k].procs && p in trace[k + 1].procs && trace[k + 1].procs[p].inTxn ensures trace[k].procs[p].inTxn {
        NobodyJoins(trace[k], run[k], p);
      }
    }
  }
}
