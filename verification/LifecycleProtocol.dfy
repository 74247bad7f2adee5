/**
 The lifecycle protocol: bash controllers, the root worker, nested borrowers, wakes, runtime
 initialisation and the operator's acknowledgement, interleaving at the granularity of one look at
 the state file, one published marker, one flock or one fork. Any process may vanish at any point.

 `State` is what survives: the state file, the flock and who shares its open file description. A run
 is a list of steps; every choice a run makes (which process, which drawn generation, what the
 service looks like) is in the step, so a run replays to exactly one list of states.
 */
module LifecycleProtocol {
  import opened Wrappers
  import opened LifecycleMarker

  type Pid = nat
  type Description = nat  // an open file description of the lock file

  datatype Role =
    | Controller(worker: bool, operation: Option<Operation>)  // worker: in-process owner; else re-exec'd by the bridge
    | Initializer
    | Waker(fence: Option<Generation>)
    | Acknowledger

  datatype Phase =
    // not holding the lock
    | InitEnsure | InitCreate | Waiting
    // controller, under the lock, inside begin_transaction
    | Ensure | Create | Inspect | Escalate(seen: Option<Operation>) | Publish
    // re-exec'd, enrolled as the owner, or enrolled as a borrower
    | Execed | Mutating | Borrowing
    // runtime initialisation, under the lock
    | InitEscalate | InitMark | InitLook | InitRotate
    // wake, under the lock
    | Checking | Starting | Waking
    // acknowledgement, under the lock
    | AckLook | AckWrite
    // nothing left to do but close the descriptor
    | Settled
  {
    predicate Outside() { InitEnsure? || InitCreate? || Waiting? }

    /** Where the root of a chain can be while its transaction is open or being closed. */
    predicate Owning() { Execed? || Mutating? || Settled? }

    /** Has read `Idle` (or, for a wake, a live fence) under the lock and will publish next. */
    predicate Poised() { Publish? || InitRotate? || Waking? }

    predicate CanFork() { Mutating? || Borrowing? || Waking? }

    /** About to attempt a publication that the file system may refuse. */
    predicate Writing() {
      InitCreate? || Create? || Escalate? || Publish? || Mutating? || InitMark? || InitRotate? || Waking? || AckWrite?
    }
  }

  /**
   `txn` is the owner marker in the process environment; `inTxn` says the process belongs to a
   transaction that was let in and may still change the service.
   */
  datatype Proc = Proc(role: Role, phase: Phase, fd: Option<Description>, parent: Option<Pid>, txn: bool, inTxn: bool)

  datatype State = State(file: StateFile, drawn: set<Generation>, lock: Option<Description>,
                         issued: set<Description>, procs: map<Pid, Proc>)

  datatype Step =
    | Enter(p: Pid, role: Role)
    | EnsureLook(p: Pid)
    | EnsureCreate(p: Pid, token: Generation)
    | Acquire(p: Pid, description: Description)
    | BeginLook(p: Pid)
    | BeginEscalate(p: Pid, token: Generation)
    | BeginPublish(p: Pid, token: Generation)
    | WriteFails(p: Pid)
    | Enroll(p: Pid)
    | Fork(p: Pid, child: Pid)
    | Complete(p: Pid, success: bool, token: Generation)
    | Leave(p: Pid)  // exit, crash, or closing the descriptor
    | FenceCheck(p: Pid)
    | StartLook(p: Pid, eligible: bool)
    | WakeRotate(p: Pid, token: Generation)
    | InitEscalateLook(p: Pid)
    | InitEscalateWrite(p: Pid, token: Generation)
    | InitRead(p: Pid)
    | InitPublish(p: Pid, token: Generation)
    | AckInspect(p: Pid, stopped: bool)
    | AckPublish(p: Pid, token: Generation)
    | MarkUnsafe(operation: Option<Operation>, token: Generation)  // reap_orphans and poll_once: no lock held

  // ---------------------------------------------------------------------------------------------
  // One step
  // ---------------------------------------------------------------------------------------------

  predicate At(s: State, p: Pid, phase: Phase) {
    p in s.procs && s.procs[p].phase == phase
  }

  /** Owners wait for the children they start, so a completion finds none of its own still running. */
  predicate Childless(s: State, p: Pid) {
    forall q | q in s.procs :: s.procs[q].parent != Some(p)
  }

  predicate Enabled(s: State, step: Step) {
    match step
    case Enter(p, role) => p !in s.procs
    case EnsureLook(p) => At(s, p, InitEnsure) || At(s, p, Ensure)
    case EnsureCreate(p, g) => (At(s, p, InitCreate) || At(s, p, Create)) && g !in s.drawn
    case Acquire(p, d) => At(s, p, Waiting) && s.lock == None && d !in s.issued
    case BeginLook(p) => At(s, p, Inspect)
    case BeginEscalate(p, g) => p in s.procs && s.procs[p].phase.Escalate? && g !in s.drawn
    case BeginPublish(p, g) => At(s, p, Publish) && g !in s.drawn
    case WriteFails(p) => p in s.procs && s.procs[p].phase.Writing()
    case Enroll(p) => At(s, p, Execed)
    case Fork(p, c) => p in s.procs && s.procs[p].phase.CanFork() && c !in s.procs
    case Complete(p, _, g) => At(s, p, Mutating) && Childless(s, p) && g !in s.drawn
    case Leave(p) => p in s.procs
    case FenceCheck(p) => At(s, p, Checking)
    case StartLook(p, _) => At(s, p, Starting)
    case WakeRotate(p, g) => At(s, p, Waking) && g !in s.drawn
    case InitEscalateLook(p) => At(s, p, InitEscalate)
    case InitEscalateWrite(p, g) => At(s, p, InitMark) && g !in s.drawn
    case InitRead(p) => At(s, p, InitLook)
    case InitPublish(p, g) => At(s, p, InitRotate) && g !in s.drawn
    case AckInspect(p, _) => At(s, p, AckLook)
    case AckPublish(p, g) => At(s, p, AckWrite) && g !in s.drawn
    case MarkUnsafe(_, g) => g !in s.drawn
  }

  /** Process `p` moves to `phase`. */
  function Move(s: State, p: Pid, phase: Phase): State
    requires p in s.procs
  {
    s.(procs := s.procs[p := s.procs[p].(phase := phase)])
  }

  /** Process `p` is let into its transaction: in place for the worker, through the re-exec bridge otherwise. */
  function Begun(s: State, p: Pid): State
    requires p in s.procs
  {
    var proc := s.procs[p];
    var worker := proc.role.Controller? && proc.role.worker;
    s.(procs := s.procs[p := proc.(phase := if worker then Mutating else Execed, txn := !worker, inTxn := true)])
  }

  function Settle(s: State, p: Pid): State
    requires p in s.procs
  {
    s.(procs := s.procs[p := s.procs[p].(phase := Settled, inTxn := false)])
  }

  /** An attempted publication; a refusal leaves the file as it was. */
  function Write(s: State, status: Status, operation: Option<Operation>, rotate: bool, force: bool,
                 token: Generation): State
  {
    s.(file := After(s.file, status, operation, rotate, force, token), drawn := s.drawn + {token})
  }

  predicate Sharer(s: State, p: Pid, d: Description) {
    p in s.procs && s.procs[p].fd == Some(d)
  }

  /** The kernel frees the lock when the last process sharing its open file description is gone. */
  function Close(s: State, p: Pid): State {
    var procs := map q | q in s.procs && q != p :: s.procs[q];
    var held := exists q | q in procs :: procs[q].fd == s.lock;
    s.(procs := procs, lock := if held then s.lock else None)
  }

  function Apply(s: State, step: Step): State
    requires Enabled(s, step)
  {
    match step
    case Enter(p, role) =>
      s.(procs := s.procs[p := Proc(role, if role.Initializer? then InitEnsure else Waiting, None, None, false, false)])
    case EnsureLook(p) =>
      if s.procs[p].phase == InitEnsure then
        Move(s, p, match s.file case Missing => InitCreate case Corrupt => Settled case Present(_) => Waiting)
      else
        Move(s, p, if s.file == Missing then Create else Inspect)
    case EnsureCreate(p, g) =>
      Move(s, p, if s.procs[p].phase == InitCreate then Waiting else Inspect)
        .(file := Present(Marker(Idle, g, None)), drawn := s.drawn + {g})
    case Acquire(p, d) =>
      var proc := s.procs[p];
      var phase := match proc.role
        case Controller(_, _) => Ensure
        case Initializer => InitEscalate
        case Waker(_) => Checking
        case Acknowledger => AckLook;
      s.(procs := s.procs[p := proc.(phase := phase, fd := Some(d))], lock := Some(d), issued := s.issued + {d})
    case BeginLook(p) =>
      if s.file.Has(Active) then Move(s, p, Escalate(s.file.marker.operation))
      else if s.file.Has(Unsafe) then Begun(s, p)
      else if s.file.Has(Idle) then Move(s, p, Publish)
      else Settle(s, p)
    case BeginEscalate(p, g) =>
      var w := Write(s, Unsafe, s.procs[p].phase.seen, false, false, g);
      if WriteState(s.file, Unsafe, s.procs[p].phase.seen, false, false, g).Ok? then Begun(w, p) else Settle(w, p)
    case BeginPublish(p, g) =>
      var operation := if s.procs[p].role.Controller? then s.procs[p].role.operation else None;
      var w := Write(s, Active, operation, true, false, g);
      if WriteState(s.file, Active, operation, true, false, g).Ok? then Begun(w, p) else Settle(w, p)
    case WriteFails(p) =>
      if s.procs[p].phase == InitMark then Move(s, p, InitLook) else Settle(s, p)
    case Enroll(p) =>
      s.(procs := s.procs[p := s.procs[p].(phase := if s.procs[p].txn then Mutating else Borrowing, txn := false)])
    case Fork(p, c) =>
      s.(procs := s.procs[c := Proc(s.procs[p].role, Execed, s.procs[p].fd, Some(p), s.procs[p].txn, s.procs[p].inTxn)])
    case Complete(p, success, g) =>
      var operation := if s.procs[p].role.Controller? then s.procs[p].role.operation else None;
      Settle(if success then Write(s, Idle, None, false, false, g) else Write(s, Unsafe, operation, false, false, g), p)
    case Leave(p) => Close(s, p)
    case FenceCheck(p) =>
      var role := s.procs[p].role;
      var pass := !role.Waker? || role.fence == None ||
                  (s.file.Has(Idle) && s.file.marker.generation == role.fence.value);
      Move(s, p, if pass then Starting else Settled)
    case StartLook(p, eligible) =>
      Move(s, p, if s.file.Has(Idle) && eligible then Waking else Settled)
    case WakeRotate(p, g) => Settle(Write(s, Idle, None, true, false, g), p)
    case InitEscalateLook(p) => Move(s, p, if s.file.Has(Active) then InitMark else InitLook)
    case InitEscalateWrite(p, g) => Move(Write(s, Unsafe, None, false, false, g), p, InitLook)
    case InitRead(p) => Move(s, p, if s.file.Has(Idle) then InitRotate else Settled)
    case InitPublish(p, g) => Settle(Write(s, Idle, None, true, false, g), p)
    case AckInspect(p, stopped) => Move(s, p, if stopped then AckWrite else Settled)
    case AckPublish(p, g) => Settle(Write(s, Idle, None, true, true, g), p)
    case MarkUnsafe(operation, g) => Write(s, Unsafe, operation, false, false, g)
  }

  // ---------------------------------------------------------------------------------------------
  // Runs
  // ---------------------------------------------------------------------------------------------

  /** Nothing runs yet; the state directory may already hold a marker. */
  predicate Initial(s: State) {
    s.procs == map[] && s.lock == None && (s.file.Present? ==> s.file.marker.generation in s.drawn)
  }

  predicate Next(s: State, step: Step, s': State) {
    Enabled(s, step) && s' == Apply(s, step)
  }

  /** `trace[k]` is the state before `run[k]`; the last state is what the run leaves behind. */
  ghost predicate Run(trace: seq<State>, run: seq<Step>) {
    && |trace| == |run| + 1
    && Initial(trace[0])
    && forall k | 0 <= k < |run| :: Next(trace[k], run[k], trace[k + 1])
  }

  // ---------------------------------------------------------------------------------------------
  // Invariants of every run
  // ---------------------------------------------------------------------------------------------

  /** An open descriptor of the lock file shares the description that holds the lock. */
  predicate LockedProc(s: State, p: Pid)
    requires p in s.procs
  {
    s.procs[p].fd.Some? ==> s.lock == s.procs[p].fd && s.procs[p].fd.value in s.issued
  }

  predicate Locked(s: State) {
    forall p | p in s.procs :: LockedProc(s, p)
  }

  /** Some process still has a descriptor of description `d`. */
  predicate Shared(s: State, d: Description) {
    exists q | q in s.procs :: s.procs[q].fd == Some(d)
  }

  /** A forked process is never more than a borrower; only parentless ones pass through the other phases. */
  predicate Shaped(proc: Proc) {
    && (proc.phase.Outside() ==> proc.fd == None)
    && (!proc.phase.Outside() && !proc.phase.Settled? ==> proc.fd.Some?)
    && (proc.parent.Some? ==> (proc.phase.Execed? || proc.phase.Borrowing?) && !proc.txn)
    && (proc.txn ==> proc.phase == Execed)
    && (proc.parent == None ==> proc.phase != Borrowing && (proc.phase == Execed ==> proc.txn))
    && (proc.inTxn ==> proc.phase.Execed? || proc.phase.Mutating? || proc.phase.Borrowing?)
  }

  /** One chain has one root, and a transaction in a chain was let in by that root. */
  predicate RootedPair(s: State, p: Pid, q: Pid)
    requires p in s.procs && q in s.procs
  {
    s.procs[p].parent == None && s.procs[p].fd.Some? && s.procs[q].fd.Some? ==>
      && (s.procs[q].parent == None ==> p == q)
      && (s.procs[q].inTxn ==> s.procs[p].phase.Owning())
  }

  predicate Rooted(s: State) {
    forall p, q | p in s.procs && q in s.procs :: RootedPair(s, p, q)
  }

  /** Whoever read `Idle` under the lock and is about to publish cannot meet an active marker. */
  predicate Unclobbered(s: State) {
    forall p | p in s.procs :: s.procs[p].phase.Poised() ==> s.file.Present? && !s.file.Has(Active)
  }

  predicate AllShaped(s: State) {
    forall p | p in s.procs :: Shaped(s.procs[p])
  }

  predicate Drawn(s: State) {
    s.file.Present? ==> s.file.marker.generation in s.drawn
  }

  predicate Inv(s: State) {
    Locked(s) && AllShaped(s) && Rooted(s) && Unclobbered(s) && Drawn(s)
  }

  /** The process that takes the step, and the one it forks. */
  predicate Acts(step: Step, q: Pid) {
    (!step.MarkUnsafe? && step.p == q) || (step.Fork? && step.child == q)
  }

  lemma OthersStay(s: State, step: Step, q: Pid)
    requires Enabled(s, step) && q in Apply(s, step).procs && !Acts(step, q)
    ensures q in s.procs && Apply(s, step).procs[q] == s.procs[q]
  {
    hide After, At, Childless;
  }

  lemma ShapedActor(s: State, step: Step, q: Pid)
    requires Enabled(s, step) && Acts(step, q) && q in Apply(s, step).procs
    requires step.p in s.procs ==> Shaped(s.procs[step.p])
    ensures Shaped(Apply(s, step).procs[q])
  {
    hide After;
  }

  lemma ShapedStep(s: State, step: Step)
    requires AllShaped(s) && Enabled(s, step)
    ensures AllShaped(Apply(s, step))
  {
    hide Apply, Enabled, Shaped;
    forall q | q in Apply(s, step).procs ensures Shaped(Apply(s, step).procs[q]) {
      if Acts(step, q) {
        ShapedActor(s, step, q);
      } else {
        OthersStay(s, step, q);
      }
    }
  }

  lemma LockedActor(s: State, step: Step, q: Pid)
    requires Enabled(s, step) && Acts(step, q) && q in Apply(s, step).procs
    requires step.p in s.procs ==> LockedProc(s, step.p) && Shaped(s.procs[step.p])
    ensures LockedProc(Apply(s, step), q)
  {
    hide After;
  }

  lemma LockedOther(s: State, step: Step, q: Pid)
    requires Enabled(s, step) && !Acts(step, q) && q in Apply(s, step).procs && q in s.procs && LockedProc(s, q)
    requires Apply(s, step).procs[q] == s.procs[q]
    ensures LockedProc(Apply(s, step), q)
  {
    hide After;
  }

  lemma LockedStep(s: State, step: Step)
    requires Locked(s) && AllShaped(s) && Enabled(s, step)
    ensures Locked(Apply(s, step))
  {
    hide Apply, Enabled, Shaped, LockedProc;
    forall q | q in Apply(s, step).procs ensures LockedProc(Apply(s, step), q) {
      if Acts(step, q) {
        LockedActor(s, step, q);
      } else {
        OthersStay(s, step, q);
        LockedOther(s, step, q);
      }
    }
  }

  /** Between `s` and `s'` only process `p` changed, and it kept its descriptor and its place in the chain. */
  predicate OnlyMoves(s: State, s': State, p: Pid) {
    && p in s.procs && p in s'.procs && s'.procs == s.procs[p := s'.procs[p]]
    && s'.procs[p].fd == s.procs[p].fd && s'.procs[p].parent == s.procs[p].parent
    && (s.procs[p].phase.Owning() && s.procs[p].parent == None ==>
          s'.procs[p].phase.Owning())
    && (s'.procs[p].inTxn ==> s.procs[p].inTxn || (s.procs[p].parent == None && s'.procs[p].phase.Owning()))
  }

  /** The steps of a process that is there and stays. */
  predicate StaysPut(step: Step) {
    !step.Enter? && !step.Acquire? && !step.Fork? && !step.Leave? && !step.MarkUnsafe?
  }

  lemma OthersKept(s: State, step: Step)
    requires Enabled(s, step) && StaysPut(step)
    ensures var s' := Apply(s, step);
            && step.p in s.procs && step.p in s'.procs && s'.procs == s.procs[step.p := s'.procs[step.p]]
            && s'.procs[step.p].fd == s.procs[step.p].fd && s'.procs[step.p].parent == s.procs[step.p].parent
  {
    hide After, Childless;
  }

  lemma OwnerStays(s: State, step: Step)
    requires Enabled(s, step) && StaysPut(step) && step.p in s.procs && Shaped(s.procs[step.p])
    ensures step.p in Apply(s, step).procs
    ensures var q, q' := s.procs[step.p], Apply(s, step).procs[step.p];
            && (q.phase.Owning() && q.parent == None ==> q'.phase.Owning())
            && (q'.inTxn ==> q.inTxn || (q.parent == None && q'.phase.Owning()))
  {
    hide After, Childless;
  }

  lemma MovesOnly(s: State, step: Step)
    requires AllShaped(s) && Enabled(s, step) && StaysPut(step)
    ensures OnlyMoves(s, Apply(s, step), step.p)
  {
    hide Enabled, Apply, Shaped;
    OthersKept(s, step);
    OwnerStays(s, step);
  }

  lemma RootedMove(s: State, s': State, p: Pid)
    requires Rooted(s) && OnlyMoves(s, s', p)
    ensures Rooted(s')
  {
    forall a, b | a in s'.procs && b in s'.procs ensures RootedPair(s', a, b) {
      assert RootedPair(s, a, b) && RootedPair(s, a, p);
    }
  }

  lemma RootedFork(s: State, step: Step)
    requires Rooted(s) && Enabled(s, step) && step.Fork?
    ensures Rooted(Apply(s, step))
  {
    var s' := Apply(s, step);
    forall a, b | a in s'.procs && b in s'.procs ensures RootedPair(s', a, b) {
      if a in s.procs {
        assert RootedPair(s, a, step.p) && (b in s.procs ==> RootedPair(s, a, b));
      }
    }
  }

  lemma RootedStep(s: State, step: Step)
    requires Locked(s) && AllShaped(s) && Rooted(s) && Enabled(s, step)
    ensures Rooted(Apply(s, step))
  {
    var s' := Apply(s, step);
    match step
    case Fork(_, _) => RootedFork(s, step);
    case Acquire(_, _) =>
    case Enter(_, _) =>
      forall a, b | a in s'.procs && b in s'.procs ensures RootedPair(s', a, b) {
        assert a in s.procs && b in s.procs ==> RootedPair(s, a, b);
      }
    case Leave(_) =>
      forall a, b | a in s'.procs && b in s'.procs ensures RootedPair(s', a, b) {
        assert RootedPair(s, a, b);
      }
    case MarkUnsafe(_, _) =>
      forall a, b | a in s'.procs && b in s'.procs ensures RootedPair(s', a, b) {
        assert RootedPair(s, a, b);
      }
    case _ =>
      MovesOnly(s, step);
      RootedMove(s, s', step.p);
  }

  lemma RootIsSole(s: State, p: Pid, q: Pid)
    requires Rooted(s) && p in s.procs && q in s.procs && s.procs[p].fd.Some? && s.procs[q].fd.Some?
    requires s.procs[p].parent == None && s.procs[q].parent == None
    ensures p == q
  {
    assert RootedPair(s, p, q);
  }

  /** Only the beginning of a transaction makes the marker active, and only where nobody else is poised. */
  lemma ActiveMarker(s: State, step: Step)
    requires Enabled(s, step) && !step.BeginPublish?
    ensures s.file.Present? ==> Apply(s, step).file.Present?
    ensures Apply(s, step).file.Has(Active) ==> s.file.Has(Active)
    ensures Apply(s, step).file == s.file || Apply(s, step).file.Present?
  {
  }

  lemma PoisedActor(s: State, step: Step, q: Pid)
    requires Unclobbered(s) && Enabled(s, step) && Acts(step, q) && q in Apply(s, step).procs && Apply(s, step).procs[q].phase.Poised()
    ensures Apply(s, step).file == s.file && s.file.Present? && !s.file.Has(Active)
  {
  }

  lemma UnclobberedStep(s: State, step: Step)
    requires Inv(s) && Enabled(s, step)
    ensures Unclobbered(Apply(s, step))
  {
    hide Apply, Shaped, RootedPair;
    var s' := Apply(s, step);
    forall q | q in s'.procs && s'.procs[q].phase.Poised() ensures s'.file.Present? && !s'.file.Has(Active) {
      if Acts(step, q) {
        PoisedActor(s, step, q);
      } else {
        OthersStay(s, step, q);
        if step.BeginPublish? {
          PoisedIsSole(s, step.p, q);
        } else {
          ActiveMarker(s, step);
        }
      }
    }
  }

  lemma PoisedIsSole(s: State, p: Pid, q: Pid)
    requires AllShaped(s) && Rooted(s) && p in s.procs && q in s.procs && s.procs[p].phase.Poised() && s.procs[q].phase.Poised()
    ensures p == q
  {
    assert Shaped(s.procs[p]) && Shaped(s.procs[q]);
    RootIsSole(s, p, q);
  }

  lemma InvStep(s: State, step: Step)
    requires Inv(s) && Enabled(s, step)
    ensures Inv(Apply(s, step))
  {
    hide Enabled, Apply, Locked, AllShaped, Rooted, Unclobbered;
    LockedStep(s, step);
    ShapedStep(s, step);
    RootedStep(s, step);
    UnclobberedStep(s, step);
    DrawnStep(s, step);
  }

  lemma DrawnStep(s: State, step: Step)
    requires Drawn(s) && Enabled(s, step)
    ensures Drawn(Apply(s, step))
  {
  }

  predicate LockAlive(s: State) {
    s.lock.Some? ==> Shared(s, s.lock.value)
  }

  /** What becomes of the lock, and of a sharer of it. */
  lemma CloseKeeps(s: State, p: Pid, q: Pid)
    requires s.lock.Some? && Sharer(s, q, s.lock.value) && p != q
    ensures Close(s, p).lock == s.lock && Sharer(Close(s, p), q, s.lock.value)
  {
    assert q in Close(s, p).procs && Close(s, p).procs[q].fd == s.lock;
  }

  lemma SharerStays(s: State, step: Step, q: Pid)
    requires Enabled(s, step) && s.lock.Some? && Sharer(s, q, s.lock.value) && step != Leave(q)
    ensures Apply(s, step).lock == s.lock && Sharer(Apply(s, step), q, s.lock.value)
  {
    hide After, Close, Childless;
    if step.Leave? {
      CloseKeeps(s, step.p, q);
    }
  }

  lemma LastLeaves(s: State, step: Step)
    requires Enabled(s, step) && step.Leave? && Apply(s, step).lock.Some?
    ensures Apply(s, step).lock == s.lock && Shared(Apply(s, step), s.lock.value)
  {
  }

  lemma AcquiredIsShared(s: State, step: Step)
    requires Enabled(s, step) && s.lock == None && Apply(s, step).lock.Some?
    ensures Shared(Apply(s, step), Apply(s, step).lock.value)
  {
    hide After;
    if step.Acquire? {
      assert Apply(s, step).procs[step.p].fd == Apply(s, step).lock;
    }
  }

  lemma LockAliveStep(s: State, step: Step)
    requires LockAlive(s) && Enabled(s, step)
    ensures LockAlive(Apply(s, step))
  {
    hide Enabled, Apply;
    if s.lock == None {
      if Apply(s, step).lock.Some? {
        AcquiredIsShared(s, step);
      }
    } else {
      var q :| q in s.procs && s.procs[q].fd == Some(s.lock.value);
      if step != Leave(q) {
        SharerStays(s, step, q);
      } else if Apply(s, step).lock.Some? {
        LastLeaves(s, step);
      }
    }
  }

  lemma {:induction false} InvHolds(trace: seq<State>, run: seq<Step>, k: nat)
    requires Run(trace, run) && k <= |run|
    ensures Inv(trace[k]) && LockAlive(trace[k])
  {
    if k > 0 {
      InvHolds(trace, run, k - 1);
      assert Next(trace[k - 1], run[k - 1], trace[k]);
      InvStep(trace[k - 1], run[k - 1]);
      LockAliveStep(trace[k - 1], run[k - 1]);
    }
  }

  // ---------------------------------------------------------------------------------------------
  // Exclusion with inherited descriptors
  // ---------------------------------------------------------------------------------------------

  /**
   In every run, at every point, two processes that hold a descriptor of the lock file hold the same
   description, the one that has the lock, whatever died before and however deep the chain is.
   */
  lemma Exclusion(trace: seq<State>, run: seq<Step>, k: nat, p: Pid, q: Pid)
    requires Run(trace, run) && k <= |run|
    requires p in trace[k].procs && trace[k].procs[p].fd.Some?
    requires q in trace[k].procs && trace[k].procs[q].fd.Some?
    ensures trace[k].procs[p].fd == trace[k].procs[q].fd == trace[k].lock
  {
    InvHolds(trace, run, k);
  }

  /** The lock is freed by the step that removes its last sharer, and by no other. */
  lemma HeldUntilLastSharer(trace: seq<State>, run: seq<Step>, k: nat, d: Description)
    requires Run(trace, run) && k < |run|
    requires trace[k].lock == Some(d)
    ensures trace[k + 1].lock == (if Shared(trace[k + 1], d) then Some(d) else None)
    ensures trace[k + 1].lock == None ==> run[k].Leave?
    ensures forall q | Sharer(trace[k], q, d) && run[k] != Leave(q) :: trace[k + 1].lock == Some(d)
  {
    hide Enabled, Apply, Inv;
    InvHolds(trace, run, k);
    InvHolds(trace, run, k + 1);
    assert Next(trace[k], run[k], trace[k + 1]);
    HeldStep(trace[k], run[k], d);
  }

  lemma HeldStep(s: State, step: Step, d: Description)
    requires Inv(s) && LockAlive(s) && Enabled(s, step) && Inv(Apply(s, step)) && s.lock == Some(d)
    ensures Apply(s, step).lock == (if Shared(Apply(s, step), d) then Some(d) else None)
    ensures Apply(s, step).lock == None ==> step.Leave?
    ensures forall q | Sharer(s, q, d) && step != Leave(q) :: Apply(s, step).lock == Some(d)
  {
    hide Enabled, Apply, Inv;
    var s' := Apply(s, step);
    var q :| q in s.procs && s.procs[q].fd == Some(d);
    forall q | Sharer(s, q, d) && step != Leave(q) ensures s'.lock == Some(d) && Shared(s', d) {
      SharerStays(s, step, q);
    }
    assert Sharer(s, q, d);
    if step == Leave(q) {
      if s'.lock.Some? {
        LastLeaves(s, step);
      } else {
        SharedIsLocked(s', d);
      }
    }
  }

  lemma SharedIsLocked(s: State, d: Description)
    requires Inv(s)
    ensures Shared(s, d) ==> s.lock == Some(d)
  {
    if Shared(s, d) {
      var q :| q in s.procs && s.procs[q].fd == Some(d);
      assert LockedProc(s, q);
    }
  }

  /** In every run, at every point, only one of the processes that hold a descriptor is not a borrower. */
  lemma SoleRoot(trace: seq<State>, run: seq<Step>, k: nat, p: Pid, q: Pid)
    requires Run(trace, run) && k <= |run|
    requires p in trace[k].procs && trace[k].procs[p].fd.Some? && trace[k].procs[p].parent == None
    requires q in trace[k].procs && trace[k].procs[q].fd.Some? && trace[k].procs[q].parent == None
    ensures p == q
  {
    hide Enabled, Apply;
    InvHolds(trace, run, k);
    RootIsSole(trace[k], p, q);
  }

  /** Who will record the completion of the transaction: the enrolled owner, or the re-exec'd one before it enrolls. */
  predicate Recorder(proc: Proc) {
    proc.phase == Mutating || (proc.phase == Execed && proc.txn)
  }

  /** Only the process that took the lock records completion: no forked one ever does, and there is at most one. */
  lemma OnlyOutermostRecords(trace: seq<State>, run: seq<Step>, k: nat, p: Pid)
    requires Run(trace, run) && k <= |run|
    requires p in trace[k].procs && Recorder(trace[k].procs[p])
    ensures trace[k].procs[p].parent == None
    ensures forall q | q in trace[k].procs && Recorder(trace[k].procs[q]) :: q == p
    ensures k < |run| && run[k].Complete? ==> run[k].p == p
  {
    InvHolds(trace, run, k);
    assert Shaped(trace[k].procs[p]);
    forall q | q in trace[k].procs && Recorder(trace[k].procs[q]) ensures q == p {
      assert Shaped(trace[k].procs[q]) && RootedPair(trace[k], p, q);
    }
    if k < |run| {
      assert Next(trace[k], run[k], trace[k + 1]);
    }
  }
}
