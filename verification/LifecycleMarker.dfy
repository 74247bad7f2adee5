/**
 The persistent maintenance marker of lib/palwarden_lifecycle.py: one state record, the rules of
 its single writer, and the store whose methods the lifecycle verbs run when nothing interleaves.
 How the verbs interleave is the subject of LifecycleProtocol.dfy, which uses the same writer.
 */
module LifecycleMarker {
  import opened Wrappers

  /** A generation token. The program draws 128 random bits; here a draw is any value not drawn before. */
  type Generation = nat

  datatype Status = Idle | Active | Unsafe

  datatype Operation = Update | Restore | Config | Maintenance

  datatype Marker = Marker(status: Status, generation: Generation, operation: Option<Operation>)

  /** What a reader of the state file finds. A missing file reads as status "unknown". */
  datatype StateFile = Missing | Corrupt | Present(marker: Marker)
  {
    predicate Has(status: Status) {
      Present? && marker.status == status
    }
  }

  datatype Error = StickyUnsafe | Unreadable | UnknownStatus

  /**
   The one way a marker is published. Leaving `Unsafe` needs `force`; the generation is kept unless
   the caller rotates it or there is none yet.
   */
  function WriteState(file: StateFile, status: Status, operation: Option<Operation>, rotate: bool, force: bool,
                      token: Generation): Result<StateFile, Error>
  {
    match file
    case Corrupt => Err(Unreadable)
    case Missing => Ok(Present(Marker(status, token, operation)))
    case Present(m) =>
      if m.status == Unsafe && status != Unsafe && !force then Err(StickyUnsafe)
      else Ok(Present(Marker(status, if rotate then token else m.generation, operation)))
  }

  /** The file after a write was attempted: a refused write leaves it as it was. */
  function After(file: StateFile, status: Status, operation: Option<Operation>, rotate: bool, force: bool,
                 token: Generation): StateFile
  {
    match WriteState(file, status, operation, rotate, force, token)
    case Ok(f) => f
    case Err(_) => file
  }

  /** The marker outcome of a maintenance transaction that is let in, started on `before`. */
  predicate Inhibits(before: StateFile, after: StateFile) {
    && after.Present?
    && after.marker.status != Idle
    && (before.Has(Idle) || before == Missing ==> after.marker.status == Active)
    && (before.Has(Active) || before.Has(Unsafe) ==>
          after.marker.status == Unsafe && after.marker.generation == before.marker.generation)
  }

  /** The state directory, as one holder of the lifecycle lock sees it when no other writer interleaves. */
  class StateStore {
    var file: StateFile
    ghost var drawn: set<Generation>

    ghost predicate Valid()
      reads this
    {
      file.Present? ==> file.marker.generation in drawn
    }

    constructor (initial: StateFile)
      ensures Valid() && file == initial
    {
      file := initial;
      drawn := if initial.Present? then {initial.marker.generation} else {};
    }

    method Publish(status: Status, operation: Option<Operation>, rotate: bool, force: bool, token: Generation)
        returns (error: Option<Error>)
      requires Valid() && token !in drawn
      modifies this
      ensures Valid() && old(drawn) <= drawn <= old(drawn) + {token}
      ensures error.None? <==> WriteState(old(file), status, operation, rotate, force, token).Ok?
      ensures error.None? ==> file.Present? && file.marker.status == status && file.marker.operation == operation
      ensures error.None? ==> if rotate || old(file) == Missing
                              then file.marker.generation !in old(drawn)
                              else file.marker.generation == old(file).marker.generation
      ensures error.Some? ==> file == old(file)
      ensures old(file).Has(Unsafe) && !force ==> file.Has(Unsafe)
      ensures file == After(old(file), status, operation, rotate, force, token)
    {
      match file {
        case Corrupt => return Some(Unreadable);
        case Missing => file := Present(Marker(status, token, operation));
        case Present(m) =>
          if m.status == Unsafe && status != Unsafe && !force {
            return Some(StickyUnsafe);
          }
          file := Present(Marker(status, if rotate then token else m.generation, operation));
      }
      drawn := drawn + {token};
      error := None;
    }

    /** Seeds an absent file; never touches an existing one. */
    method EnsureState(token: Generation) returns (error: Option<Error>)
      requires Valid() && token !in drawn
      modifies this
      ensures Valid() && old(drawn) <= drawn <= old(drawn) + {token}
      ensures error.Some? <==> old(file) == Corrupt
      ensures old(file) != Missing ==> file == old(file) && drawn == old(drawn)
      ensures old(file) == Missing ==> file == Present(Marker(Idle, token, None))
    {
      if file == Missing {
        file := Present(Marker(Idle, token, None));
        drawn := drawn + {token};
      }
      error := if file == Corrupt then Some(Unreadable) else None;
    }

    /** Marks a transaction that its owner abandoned. Best effort: never reports failure. */
    method EscalateAbandoned(token: Generation) returns (escalated: bool)
      requires Valid() && token !in drawn
      modifies this
      ensures Valid() && old(drawn) <= drawn <= old(drawn) + {token}
      ensures escalated <==> old(file).Has(Active)
      ensures escalated ==> file == Present(Marker(Unsafe, old(file).marker.generation, None))
      ensures !escalated ==> file == old(file)
    {
      if !file.Has(Active) {
        return false;
      }
      var error := Publish(Unsafe, None, false, false, token);
      escalated := error.None?;
    }

    /**
     Publishes the inhibition that must precede any service change. `begun` says a new transaction
     was opened; `Ok(false)` preserves an unsafe marker and still lets deliberate recovery proceed.
     */
    method BeginTransaction(operation: Option<Operation>, seed: Generation, token: Generation)
        returns (begun: Result<bool, Error>)
      requires Valid() && seed !in drawn && token !in drawn && seed != token
      modifies this
      ensures Valid() && old(drawn) <= drawn
      ensures begun.Err? <==> old(file) == Corrupt
      ensures begun.Err? ==> file == old(file)
      ensures begun.Ok? ==> Inhibits(old(file), file)
      ensures begun == Ok(true) ==>
                file == Present(Marker(Active, token, operation)) && token !in old(drawn)
      ensures begun.Ok? && !begun.value ==> file.Has(Unsafe)
    {
      var error := EnsureState(seed);
      if error.Some? {
        return Err(error.value);
      }
      if file.Has(Active) {
        error := Publish(Unsafe, file.marker.operation, false, false, token);
      }
      if file.Has(Unsafe) {
        return Ok(false);
      }
      error := Publish(Active, operation, true, false, token);
      begun := Ok(true);
    }

    /** The owner's completion record: idle on success, unsafe otherwise, and never out of unsafe. */
    method Complete(success: bool, operation: Option<Operation>, token: Generation)
      requires Valid() && token !in drawn
      modifies this
      ensures Valid() && old(drawn) <= drawn
      ensures file.Has(Idle) <==> success && old(file) != Corrupt && !old(file).Has(Unsafe)
      ensures old(file) != Corrupt && !file.Has(Idle) ==> file.Has(Unsafe)
      ensures old(file).Present? ==> file.Present? && file.marker.generation == old(file).marker.generation
    {
      var _ := Publish(if success then Idle else Unsafe, if success then None else operation, false, false, token);
    }

    /** Runtime start-up under ownership: only an idle marker rotates. */
    method InitRuntime(seed: Generation, mark: Generation, token: Generation) returns (error: Option<Error>)
      requires Valid() && seed !in drawn && mark !in drawn && token !in drawn
      requires seed != mark && mark != token && seed != token
      modifies this
      ensures Valid() && old(drawn) <= drawn
      ensures error.Some? <==> old(file) == Corrupt
      ensures file.Has(Idle) <==> old(file).Has(Idle) || old(file) == Missing
      ensures file.Has(Idle) ==> file.marker.generation == token
      ensures !file.Has(Idle) && old(file).Present? ==>
                file.Has(Unsafe) && file.marker.generation == old(file).marker.generation
    {
      error := EnsureState(seed);
      if error.Some? {
        return;
      }
      var _ := EscalateAbandoned(mark);
      if file.Has(Idle) {
        error := Publish(Idle, None, true, false, token);
      }
    }

    /** The operator's way out of an unsafe marker; refused unless the service is confirmed stopped. */
    method AcknowledgeMaintenance(confirmedStopped: bool, token: Generation) returns (cleared: bool)
      requires Valid() && token !in drawn
      modifies this
      ensures Valid() && old(drawn) <= drawn
      ensures cleared <==> confirmedStopped && old(file) != Corrupt
      ensures cleared ==> file == Present(Marker(Idle, token, None))
      ensures !cleared ==> file == old(file)
    {
      if !confirmedStopped {
        return false;
      }
      var error := Publish(Idle, None, true, true, token);
      cleared := error.None?;
    }
  }
}
