/**
 The idempotent start of lib/palwarden_lifecycle.py and its cooldown file: how often a wake, from
 whichever source, can issue a start.
 */
module WakeRate {
  import opened Wrappers

  const FUTURE_SKEW_MS := 60_000

  /** The cooldown file; a value the reader cannot take as a timestamp is `Garbled`. */
  datatype CooldownFile = Absent | Garbled | Stamp(ms: int)

  datatype ServiceState = Running | Starting | Stopping | Stopped | CrashBackoff | NoSupervisor | Unknown

  datatype Cooldown = Missing | Active | Expired | Invalid

  datatype Outcome = Started | AlreadyRunning | CoolingDown | Refused | Failed

  /** `now` was read before `readAt`, the clock reading of the file reader's own plausibility check. */
  function CooldownStatus(file: CooldownFile, cooldownMs: nat, now: int, readAt: int): Cooldown {
    match file
    case Absent => Missing
    case Garbled => Invalid
    case Stamp(last) =>
      if last < 0 || last > readAt + FUTURE_SKEW_MS || now - last < 0 then Invalid
      else if now - last < cooldownMs then Active
      else Expired
  }

  /** What one wake meets: its three clock readings, when the start is issued, and the world around it. */
  datatype Call = Call(check: int, readAt: int, stamp: int, start: int, idle: bool, service: ServiceState)

  /** The checks before any effect; `None` means go ahead. */
  function Refusal(file: CooldownFile, cooldownMs: nat, c: Call): Option<Outcome> {
    if !c.idle then Some(Refused)
    else match c.service
    case Running => Some(AlreadyRunning)
    case Starting => Some(AlreadyRunning)
    case Stopped =>
      (match CooldownStatus(file, cooldownMs, c.check, c.readAt)
       case Invalid => Some(Failed)
       case Active => Some(CoolingDown)
       case Missing => None
       case Expired => None)
    case _ => Some(Refused)
  }

  /** The starter under the lifecycle lock; `issued` records every start that was sent to the supervisor. */
  class Starter {
    var cooldown: CooldownFile
    var issued: seq<Call>

    constructor (file: CooldownFile)
      ensures cooldown == file && issued == []
    {
      cooldown, issued := file, [];
    }

    /** `reaches` is false when the process dies, or the starter fails, after the stamp and before the start. */
    method StartIfDown(cooldownMs: nat, c: Call, reaches: bool) returns (outcome: Outcome)
      modifies this
      ensures Refusal(old(cooldown), cooldownMs, c).Some? ==>
                cooldown == old(cooldown) && issued == old(issued) && outcome == Refusal(old(cooldown), cooldownMs, c).value
      ensures Refusal(old(cooldown), cooldownMs, c).None? ==>
                cooldown == Stamp(c.stamp) && issued == old(issued) + (if reaches then [c] else [])
      ensures issued == old(issued) + Issued(old(cooldown), cooldownMs, [c], [reaches])
      ensures issued != old(issued) ==>
                && c.idle && c.service == Stopped && outcome == Started
                && cooldown == Stamp(c.stamp)
                && (old(cooldown) == Absent || (old(cooldown).Stamp? && c.check - old(cooldown).ms >= cooldownMs))
    {
      var refusal := Refusal(cooldown, cooldownMs, c);
      if refusal.Some? {
        return refusal.value;
      }
      cooldown := Stamp(c.stamp);
      if reaches {
        issued := issued + [c];
        return Started;
      }
      return Failed;
    }
  }

  // ---------------------------------------------------------------------------------------------
  // Any number of wakes, one after the other under the lock
  // ---------------------------------------------------------------------------------------------

  /** The starts issued by a series of wakes that begins with `file`; `reaches[i]` as for `StartIfDown`. */
  function Issued(file: CooldownFile, cooldownMs: nat, calls: seq<Call>, reaches: seq<bool>): seq<Call>
    requires |calls| == |reaches|
    decreases |calls|
  {
    if calls == [] then []
    else if Refusal(file, cooldownMs, calls[0]).Some? then Issued(file, cooldownMs, calls[1..], reaches[1..])
    else (if reaches[0] then [calls[0]] else []) + Issued(Stamp(calls[0].stamp), cooldownMs, calls[1..], reaches[1..])
  }

  /** The clock never goes back from `from` on, within a wake or from one wake to the next. */
  predicate Clocked(from: int, calls: seq<Call>)
    decreases calls
  {
    calls == [] ||
    (var c := calls[0];
     from <= c.check <= c.readAt <= c.stamp <= c.start && Clocked(c.start, calls[1..]))
  }

  /** Each start was checked at least one cooldown after the stamp of the one before, the first after `floor`. */
  predicate Spaced(starts: seq<Call>, cooldownMs: nat, floor: Option<int>) {
    starts == [] ||
    ((floor.Some? ==> starts[0].check - floor.value >= cooldownMs) && Spaced(starts[1..], cooldownMs, Some(starts[0].stamp)))
  }

  function Floor(file: CooldownFile): Option<int> {
    if file.Stamp? then Some(file.ms) else None
  }

  /** A later floor is the stronger demand. */
  lemma FloorWeakens(starts: seq<Call>, cooldownMs: nat, low: Option<int>, high: int)
    requires Spaced(starts, cooldownMs, Some(high)) && (low.Some? ==> low.value <= high)
    ensures Spaced(starts, cooldownMs, low)
  {
  }

  lemma ClockWeakens(low: int, high: int, calls: seq<Call>)
    requires low <= high && Clocked(high, calls)
    ensures Clocked(low, calls)
  {
  }

  lemma {:induction false} IssuedSpaced(from: int, file: CooldownFile, cooldownMs: nat, calls: seq<Call>, reaches: seq<bool>)
    requires |calls| == |reaches| && Clocked(from, calls)
    ensures Spaced(Issued(file, cooldownMs, calls, reaches), cooldownMs, Floor(file))
    ensures Clocked(from, Issued(file, cooldownMs, calls, reaches))
    decreases |calls|
  {
    if calls != [] {
      var c := calls[0];
      var refused := Refusal(file, cooldownMs, c).Some?;
      var file' := if refused then file else Stamp(c.stamp);
      var later := Issued(file', cooldownMs, calls[1..], reaches[1..]);
      IssuedSpaced(c.start, file', cooldownMs, calls[1..], reaches[1..]);
      if !refused && reaches[0] {
        assert ([c] + later)[1..] == later;
      } else {
        assert Issued(file, cooldownMs, calls, reaches) == later;
        ClockWeakens(from, c.start, later);
        if !refused && file.Stamp? {
          FloorWeakens(later, cooldownMs, Floor(file), c.stamp);
        }
      }
    }
  }

  /** `i` wakes after the one stamped at `floor`, at least `i + 1` cooldowns have passed. */
  lemma {:induction false} SpacedApart(from: int, starts: seq<Call>, cooldownMs: nat, floor: int, i: nat)
    requires Clocked(from, starts) && Spaced(starts, cooldownMs, Some(floor)) && i < |starts|
    ensures starts[i].stamp - floor >= (i + 1) * cooldownMs
    decreases starts
  {
    var c := starts[0];
    if i > 0 {
      SpacedApart(c.start, starts[1..], cooldownMs, c.stamp, i - 1);
      assert (i + 1) * cooldownMs == i * cooldownMs + cooldownMs;
    }
  }

  lemma {:induction false} SpacedDrop(from: int, starts: seq<Call>, cooldownMs: nat, floor: Option<int>, i: nat)
    requires Clocked(from, starts) && Spaced(starts, cooldownMs, floor) && i < |starts|
    ensures Clocked(starts[i].start, starts[i + 1..]) && Spaced(starts[i + 1..], cooldownMs, Some(starts[i].stamp))
    ensures starts[i].stamp <= starts[i].start
    ensures i + 1 < |starts| ==> starts[i].start <= starts[i + 1].stamp
    decreases starts
  {
    if i > 0 {
      SpacedDrop(starts[0].start, starts[1..], cooldownMs, Some(starts[0].stamp), i - 1);
      assert starts[1..][i..] == starts[i + 1..];
    }
  }

  lemma StampsApart(from: int, starts: seq<Call>, cooldownMs: nat, floor: Option<int>, i: nat, gaps: nat)
    requires Clocked(from, starts) && Spaced(starts, cooldownMs, floor) && i + gaps < |starts|
    ensures starts[i + gaps].stamp - starts[i].stamp >= gaps * cooldownMs
  {
    SpacedDrop(from, starts, cooldownMs, floor, i);
    if gaps > 0 {
      SpacedApart(starts[i].start, starts[i + 1..], cooldownMs, starts[i].stamp, gaps - 1);
    }
  }

  /**
   The wake rate bound: of all the starts any series of wakes issues, k stamped within W milliseconds
   of each other satisfy (k - 1) * cooldown <= W, whatever died between stamp and start.
   */
  lemma RateBound(from: int, file: CooldownFile, cooldownMs: nat, calls: seq<Call>, reaches: seq<bool>, i: nat, k: nat, w: nat)
    requires |calls| == |reaches| && Clocked(from, calls)
    requires var starts := Issued(file, cooldownMs, calls, reaches);
             0 < k && i + k <= |starts| && starts[i + k - 1].stamp - starts[i].stamp <= w
    ensures (k - 1) * cooldownMs <= w
  {
    IssuedSpaced(from, file, cooldownMs, calls, reaches);
    StampsApart(from, Issued(file, cooldownMs, calls, reaches), cooldownMs, Floor(file), i, k - 1);
  }

  // ---------------------------------------------------------------------------------------------
  // Measured between the starts themselves
  // ---------------------------------------------------------------------------------------------

  /** Measured between the starts themselves, what is lost is the delay of the first of them behind its stamp. */
  lemma StartsApart(from: int, file: CooldownFile, cooldownMs: nat, calls: seq<Call>, reaches: seq<bool>, i: nat, k: nat)
    requires |calls| == |reaches| && Clocked(from, calls)
    requires 0 < k && i + k <= |Issued(file, cooldownMs, calls, reaches)|
    ensures var starts := Issued(file, cooldownMs, calls, reaches);
            starts[i + k - 1].start - starts[i].start >= (k - 1) * cooldownMs - (starts[i].start - starts[i].stamp)
  {
    var starts := Issued(file, cooldownMs, calls, reaches);
    IssuedSpaced(from, file, cooldownMs, calls, reaches);
    StampsApart(from, starts, cooldownMs, Floor(file), i, k - 1);
    SpacedDrop(from, starts, cooldownMs, Floor(file), i + k - 1);
  }

  /** Every start comes at most `d` after its stamp. */
  predicate Prompt(starts: seq<Call>, d: nat) {
    forall i | 0 <= i < |starts| :: starts[i].start - starts[i].stamp <= d
  }

  /** k starts issued within W milliseconds, each at most d after its stamp, satisfy (k - 1) * cooldown <= W + d. */
  lemma RateBoundOfStarts(from: int, file: CooldownFile, cooldownMs: nat, calls: seq<Call>, reaches: seq<bool>, i: nat, k: nat, w: nat, d: nat)
    requires |calls| == |reaches| && Clocked(from, calls) && Prompt(Issued(file, cooldownMs, calls, reaches), d)
    requires var starts := Issued(file, cooldownMs, calls, reaches);
             0 < k && i + k <= |starts| && starts[i + k - 1].start - starts[i].start <= w
    ensures (k - 1) * cooldownMs <= w + d
  {
    StartsApart(from, file, cooldownMs, calls, reaches, i, k);
  }

  /** However late the starts are, k of them issued within W milliseconds satisfy (k - 2) * cooldown <= W. */
  lemma RateBoundWithoutPromptness(from: int, file: CooldownFile, cooldownMs: nat, calls: seq<Call>, reaches: seq<bool>, i: nat, k: nat, w: nat)
    requires |calls| == |reaches| && Clocked(from, calls)
    requires var starts := Issued(file, cooldownMs, calls, reaches);
             1 < k && i + k <= |starts| && starts[i + k - 1].start - starts[i].start <= w
    ensures (k - 2) * cooldownMs <= w
  {
    var starts := Issued(file, cooldownMs, calls, reaches);
    IssuedSpaced(from, file, cooldownMs, calls, reaches);
    SpacedDrop(from, starts, cooldownMs, Floor(file), i);
    SpacedDrop(from, starts, cooldownMs, Floor(file), i + k - 1);
    StampsApart(from, starts, cooldownMs, Floor(file), i + 1, k - 2);
  }

  /** A wake at `t` that meets an idle, stopped server, and whose start is issued `delay` later. */
  function Eager(t: nat, delay: nat): Call {
    Call(t, t, t, t + delay, true, Stopped)
  }

  /** Wakes one cooldown apart from `t` on, all of them at once. */
  function Eagers(t: nat, cooldownMs: nat, n: nat): seq<Call>
    decreases n
  {
    if n == 0 then [] else [Eager(t, 0)] + Eagers(t + cooldownMs, cooldownMs, n - 1)
  }

  function AllReach(n: nat): seq<bool> {
    seq(n, _ => true)
  }

  lemma {:induction false} EagersAreIssued(from: int, file: CooldownFile, t: nat, cooldownMs: nat, n: nat)
    requires from <= t && (file == Absent || (file.Stamp? && 0 <= file.ms && t - file.ms >= cooldownMs))
    ensures var calls := Eagers(t, cooldownMs, n);
            |calls| == n && Clocked(from, calls) && Issued(file, cooldownMs, calls, AllReach(n)) == calls
    decreases n
  {
    if n > 0 {
      var calls, later := Eagers(t, cooldownMs, n), Eagers(t + cooldownMs, cooldownMs, n - 1);
      EagersAreIssued(t, Stamp(t), t + cooldownMs, cooldownMs, n - 1);
      assert calls[1..] == later && AllReach(n)[1..] == AllReach(n - 1);
    }
  }

  lemma {:induction false} EagersAt(t: nat, cooldownMs: nat, n: nat, i: nat)
    requires i < n
    ensures |Eagers(t, cooldownMs, n)| == n && Eagers(t, cooldownMs, n)[i] == Eager(t + i * cooldownMs, 0)
    decreases n
  {
    hide Eager;
    if i > 0 {
      EagersAt(t + cooldownMs, cooldownMs, n - 1, i - 1);
      assert t + cooldownMs + (i - 1) * cooldownMs == t + i * cooldownMs;
    } else if n > 1 {
      EagersAt(t + cooldownMs, cooldownMs, n - 1, 0);
    }
  }

  /** A start held up for `d` after its stamp, and then n more as early as the cooldown lets them. */
  function HeldUp(cooldownMs: nat, n: nat, d: nat): seq<Call> {
    [Eager(0, d)] + Eagers(cooldownMs, cooldownMs, n)
  }

  lemma HeldUpIsIssued(cooldownMs: nat, n: nat, d: nat)
    requires d <= cooldownMs
    ensures var calls := HeldUp(cooldownMs, n, d);
            && |calls| == n + 1 && Clocked(0, calls) && Issued(Absent, cooldownMs, calls, AllReach(n + 1)) == calls
  {
    hide Eagers;
    var calls, later := HeldUp(cooldownMs, n, d), Eagers(cooldownMs, cooldownMs, n);
    EagersAreIssued(d, Stamp(0), cooldownMs, cooldownMs, n);
    assert calls[1..] == later && AllReach(n + 1)[1..] == AllReach(n);
  }

  lemma {:induction false} EagersLength(t: nat, cooldownMs: nat, n: nat)
    ensures |Eagers(t, cooldownMs, n)| == n
    decreases n
  {
    if n > 0 {
      EagersLength(t + cooldownMs, cooldownMs, n - 1);
    }
  }

  lemma HeldUpAt(cooldownMs: nat, n: nat, d: nat, i: nat)
    requires d <= cooldownMs && i <= n
    ensures |HeldUp(cooldownMs, n, d)| == n + 1
    ensures HeldUp(cooldownMs, n, d)[i] == if i == 0 then Eager(0, d) else Eager(i * cooldownMs, 0)
  {
    hide Eagers;
    EagersLength(cooldownMs, cooldownMs, n);
    if i > 0 {
      EagersAt(cooldownMs, cooldownMs, n, i - 1);
      assert HeldUp(cooldownMs, n, d)[i] == Eagers(cooldownMs, cooldownMs, n)[i - 1];
      assert cooldownMs + (i - 1) * cooldownMs == i * cooldownMs;
    }
  }

  /** Nothing better can be said: for every delay up to the cooldown, and every number of starts, the bound is met exactly. */
  lemma RateBoundIsTight(cooldownMs: nat, n: nat, d: nat)
    requires d <= cooldownMs && n > 0
    ensures var calls := HeldUp(cooldownMs, n, d);
            && |calls| == n + 1 && Clocked(0, calls) && Issued(Absent, cooldownMs, calls, AllReach(n + 1)) == calls && Prompt(calls, d)
            && calls[n].start - calls[0].start == n * cooldownMs - d
  {
    hide HeldUp, Issued, Clocked, Eager;
    HeldUpIsIssued(cooldownMs, n, d);
    forall i | 0 <= i <= n ensures HeldUp(cooldownMs, n, d)[i].start - HeldUp(cooldownMs, n, d)[i].stamp <= d {
      HeldUpAt(cooldownMs, n, d, i);
      EagerTimes(0, d);
      EagerTimes(i * cooldownMs, 0);
    }
    HeldUpAt(cooldownMs, n, d, 0);
    HeldUpAt(cooldownMs, n, d, n);
    EagerTimes(0, d);
    EagerTimes(n * cooldownMs, 0);
  }

  lemma EagerTimes(t: nat, delay: nat)
    ensures Eager(t, delay).stamp == t && Eager(t, delay).start == t + delay
  {
  }

  /** In particular a start held up for a whole cooldown lets the second one follow at the same moment. */
  lemma StartsCanBunch(cooldownMs: nat) returns (calls: seq<Call>, reaches: seq<bool>)
    requires cooldownMs > 0
    ensures |calls| == |reaches| && Clocked(0, calls)
    ensures var starts := Issued(Absent, cooldownMs, calls, reaches);
            |starts| == 2 && starts[1].start == starts[0].start
  {
    calls, reaches := HeldUp(cooldownMs, 1, cooldownMs), AllReach(2);
    RateBoundIsTight(cooldownMs, 1, cooldownMs);
  }

  /** k starts in a row are k - 1 cooldowns apart. */
  predicate FarApart(starts: seq<Call>, cooldownMs: nat) {
    forall i, j | 0 <= i <= j < |starts| :: starts[j].start - starts[i].start >= (j - i) * cooldownMs
  }

  /**
   So the bound of k - 1 cooldowns, measured between the starts themselves, holds in all series of
   wakes exactly if a start is never later than its stamp.
   */
  lemma StartsFarApartIffPrompt(cooldownMs: nat, d: nat)
    requires cooldownMs > 0
    ensures (forall file, calls, reaches, from: int | |calls| == |reaches| && Clocked(from, calls) && Prompt(Issued(file, cooldownMs, calls, reaches), d) ::
               FarApart(Issued(file, cooldownMs, calls, reaches), cooldownMs))
            <==> d == 0
  {
    if d == 0 {
      forall file, calls, reaches, from: int | |calls| == |reaches| && Clocked(from, calls) && Prompt(Issued(file, cooldownMs, calls, reaches), d)
        ensures FarApart(Issued(file, cooldownMs, calls, reaches), cooldownMs)
      {
        var starts := Issued(file, cooldownMs, calls, reaches);
        forall i, j | 0 <= i <= j < |starts| ensures starts[j].start - starts[i].start >= (j - i) * cooldownMs {
          StartsApart(from, file, cooldownMs, calls, reaches, i, j - i + 1);
        }
      }
    } else {
      var delay := if d < cooldownMs then d else cooldownMs;
      var calls := HeldUp(cooldownMs, 1, delay);
      RateBoundIsTight(cooldownMs, 1, delay);
      assert |calls| == |AllReach(2)| && Clocked(0, calls) && Issued(Absent, cooldownMs, calls, AllReach(2)) == calls;
      assert Prompt(calls, d) && !FarApart(calls, cooldownMs) by {
        assert calls[1].start - calls[0].start < (1 - 0) * cooldownMs;
      }
    }
  }
}
