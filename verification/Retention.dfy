/** Scheduled backups and their retention: sbin/palworld-backups. Times are nanoseconds. */
module Retention {
  import opened Wrappers

  const SECOND := 1_000_000_000
  const HOUR := 3600 * SECOND
  const DAY := 86400 * SECOND

  datatype Archive = Archive(name: string, mtime: int)

  // ---------------------------------------------------------------------------------------------
  // Pruning
  // ---------------------------------------------------------------------------------------------

  /** Where the slice `names[keepMin:]` begins; a negative bound counts from the end. */
  function Start(n: nat, keepMin: int): (s: nat)
    ensures s <= n
  {
    if keepMin >= 0 then (if keepMin < n then keepMin else n)
    else if n + keepMin > 0 then n + keepMin else 0
  }

  /** Past the window, and not one that the loop has to pass over. */
  predicate Doomed(x: Archive, cutoff: int, passed: set<string>) {
    x.mtime < cutoff && x.name !in passed
  }

  /** Which archives go: the doomed ones behind the floor, except the very newest when no other one stays. */
  predicate Goes(a: seq<Archive>, i: nat, start: nat, cutoff: int, passed: set<string>)
    requires i < |a|
  {
    i >= start && Doomed(a[i], cutoff, passed)
    && (i > 0 || exists j :: 0 < j < |a| && (j < start || !Doomed(a[j], cutoff, passed)))
  }

  function KeepFrom(a: seq<Archive>, i: nat, start: nat, cutoff: int, passed: set<string>): seq<Archive>
    requires i <= |a|
    decreases |a| - i
  {
    if i == |a| then []
    else (if Goes(a, i, start, cutoff, passed) then [] else [a[i]]) + KeepFrom(a, i + 1, start, cutoff, passed)
  }

  /** The names that go, oldest first. */
  function GoneFrom(a: seq<Archive>, i: nat, start: nat, cutoff: int, passed: set<string>): seq<string>
    requires i <= |a|
    decreases |a| - i
  {
    if i == |a| then []
    else GoneFrom(a, i + 1, start, cutoff, passed) + if Goes(a, i, start, cutoff, passed) then [a[i].name] else []
  }

  /** What the loop leaves of its listing, newest name first. */
  function Remaining(a: seq<Archive>, keepMin: int, cutoff: int, passed: set<string>): seq<Archive> {
    KeepFrom(a, 0, Start(|a|, keepMin), cutoff, passed)
  }

  lemma {:induction false} NothingKept(a: seq<Archive>, i: nat, start: nat, cutoff: int, passed: set<string>)
    requires 0 < i <= |a|
    ensures KeepFrom(a, i, start, cutoff, passed) == [] <==> forall j | i <= j < |a| :: j >= start && Doomed(a[j], cutoff, passed)
    decreases |a| - i
  {
    hide Doomed;
    if i < |a| {
      NothingKept(a, i + 1, start, cutoff, passed);
    }
  }

  predicate Distinct(a: seq<Archive>) {
    forall i, j | 0 <= i < j < |a| :: a[i].name != a[j].name
  }

  function Without(a: seq<Archive>, gone: set<string>): seq<Archive> {
    if a == [] then []
    else (if a[0].name in gone then [] else [a[0]]) + Without(a[1..], gone)
  }

  /**
   What is left of a directory. `stuck` cannot be inspected or removed; `vanished` is taken away by
   other hands between the listing and the end. The loop passes over both alike, and counts both among
   the survivors.
   */
  function Pruned(a: seq<Archive>, keepMin: int, cutoff: int, stuck: set<string>, vanished: set<string>): seq<Archive> {
    Without(Remaining(a, keepMin, cutoff, stuck + vanished), vanished)
  }

  // ---------------------------------------------------------------------------------------------
  // The schedule
  // ---------------------------------------------------------------------------------------------

  /** The latest time of all that can be inspected; none if nothing can. */
  predicate IsNewest(a: seq<Archive>, unread: set<string>, t: Option<int>) {
    && (t.None? ==> forall i | 0 <= i < |a| :: a[i].name in unread)
    && (t.Some? ==> (exists i :: 0 <= i < |a| && a[i].name !in unread && a[i].mtime == t.value)
                    && forall i | 0 <= i < |a| && a[i].name !in unread :: a[i].mtime <= t.value)
  }

  function BackupDue(newest: Option<int>, now: int, intervalHours: int): bool {
    newest.None? || now - newest.value >= intervalHours * HOUR
  }

  datatype Schedule = Schedule(enabled: bool, intervalHours: int, retentionDays: int, keepMin: int)

  /** One run of the tick: when it looks and what it cannot inspect then, whether and when the backup is written, when it prunes, and what it meets then. */
  datatype Tick = Tick(checkedAt: int, unread: set<string>, written: Option<Archive>, prunedAt: int, trustworthy: bool,
                       stuck: set<string>, vanished: set<string>)

  predicate Creates(a: seq<Archive>, s: Schedule, tick: Tick) {
    s.enabled && tick.written.Some?
    && forall i | 0 <= i < |a| && a[i].name !in tick.unread :: tick.checkedAt - a[i].mtime >= s.intervalHours * HOUR
  }

  /** The backup first, so that it counts towards the floor. Its name sorts before all others. */
  function Ticked(a: seq<Archive>, s: Schedule, tick: Tick): seq<Archive> {
    var grown := if Creates(a, s, tick) then [tick.written.value] + a else a;
    if tick.trustworthy then Pruned(grown, s.keepMin, tick.prunedAt - s.retentionDays * DAY, tick.stuck, tick.vanished) else grown
  }

  class Directory {
    var archives: seq<Archive>

    /** From the oldest name on. The count of survivors starts from the listing and misses what vanishes. */
    method PruneArchives(retentionDays: int, keepMin: int, now: int, stuck: set<string>, vanished: set<string>)
        returns (deleted: seq<string>)
      requires Distinct(archives)
      modifies this
      ensures archives == Pruned(old(archives), keepMin, now - retentionDays * DAY, stuck, vanished)
      ensures deleted == GoneFrom(old(archives), 0, Start(|old(archives)|, keepMin), now - retentionDays * DAY, stuck + vanished)
    {
      hide Goes, KeepFrom, GoneFrom, Without, Distinct;
      var listing := archives;
      archives := Without(archives, vanished);
      ghost var passed := stuck + vanished;
      var cutoff := now - retentionDays * DAY;
      var first := Start(|listing|, keepMin);
      var survivors := |listing|;
      deleted := [];
      var i := |listing|;
      NoneBehind(listing, first, cutoff, passed);
      while i > first
        invariant first <= i <= |listing| && survivors == i + |KeepFrom(listing, i, first, cutoff, passed)|
        invariant archives == Without(listing[..i] + KeepFrom(listing, i, first, cutoff, passed), vanished)
        invariant deleted == GoneFrom(listing, i, first, cutoff, passed)
      {
        i := i - 1;
        ghost var behind := KeepFrom(listing, i + 1, first, cutoff, passed);
        Slices(listing, i, behind);
        OneBack(listing, i, first, cutoff, passed);
        var archive := listing[i];
        if survivors <= 1 {
          break;
        }
        if archive.name in vanished || archive.name in stuck {
          continue;
        }
        if archive.mtime >= cutoff {
          continue;
        }
        Unlinked(listing, i, first, cutoff, passed, vanished);
        archives := Without(archives, {archive.name});
        deleted := deleted + [archive.name];
        survivors := survivors - 1;
        assert [] + behind == behind;
      }
      FloorKept(listing, i, first, cutoff, passed);
    }

    method NewestArchiveMtime(unread: set<string>) returns (newest: Option<int>)
      ensures IsNewest(archives, unread, newest)
    {
      newest := None;
      for i := 0 to |archives|
        invariant IsNewest(archives[..i], unread, newest)
      {
        if archives[i].name in unread {
          NewestOfMore(archives, i, unread, newest);
          continue;
        }
        NewestOfMore(archives, i, unread, newest);
        if newest.None? || archives[i].mtime > newest.value {
          newest := Some(archives[i].mtime);
        }
      }
      assert archives[..|archives|] == archives;
    }

    method RunTick(s: Schedule, tick: Tick)
      requires Distinct(archives) && (tick.written.Some? ==> forall i | 0 <= i < |archives| :: archives[i].name != tick.written.value.name)
      modifies this
      ensures archives == Ticked(old(archives), s, tick)
    {
      if s.enabled {
        var newest := NewestArchiveMtime(tick.unread);
        if BackupDue(newest, tick.checkedAt, s.intervalHours) && tick.written.Some? {
          archives := [tick.written.value] + archives;
        }
      }
      if tick.trustworthy {
        var _ := PruneArchives(s.retentionDays, s.keepMin, tick.prunedAt, tick.stuck, tick.vanished);
      }
    }
  }

  lemma NewestOfMore(a: seq<Archive>, i: nat, unread: set<string>, t: Option<int>)
    requires i < |a| && IsNewest(a[..i], unread, t)
    ensures var next := if a[i].name !in unread && (t.None? || a[i].mtime > t.value) then Some(a[i].mtime) else t;
            IsNewest(a[..i + 1], unread, next)
  {
    var more := a[..i + 1];
    assert more[i] == a[i] && forall k | 0 <= k < i :: more[k] == a[..i][k];
    if t.Some? {
      var k :| 0 <= k < i && a[..i][k].name !in unread && a[..i][k].mtime == t.value;
      assert more[k].name !in unread && more[k].mtime == t.value;
    }
  }

  lemma {:induction false} WithoutConcat(a: seq<Archive>, b: seq<Archive>, gone: set<string>)
    ensures Without(a + b, gone) == Without(a, gone) + Without(b, gone)
    decreases |a|
  {
    if a == [] {
      assert a + b == b;
    } else {
      assert (a + b)[1..] == a[1..] + b;
      WithoutConcat(a[1..], b, gone);
    }
  }

  lemma {:induction false} WithoutOne(a: seq<Archive>, gone: set<string>, name: string)
    requires forall i | 0 <= i < |a| :: a[i].name != name
    ensures Without(Without(a, gone), {name}) == Without(a, gone)
  {
    if a != [] {
      WithoutOne(a[1..], gone, name);
      WithoutConcat(if a[0].name in gone then [] else [a[0]], Without(a[1..], gone), {name});
      assert [a[0]][1..] == [];
    }
  }

  lemma {:induction false} KeptNames(a: seq<Archive>, i: nat, start: nat, cutoff: int, passed: set<string>, name: string)
    requires i <= |a| && forall j | i <= j < |a| :: a[j].name != name
    ensures forall k | 0 <= k < |KeepFrom(a, i, start, cutoff, passed)| :: KeepFrom(a, i, start, cutoff, passed)[k].name != name
    decreases |a| - i
  {
    hide Goes;
    if i < |a| {
      KeptNames(a, i + 1, start, cutoff, passed, name);
    }
  }

  /** Removing one name from what is there is leaving out one archive of the listing. */
  lemma Unlinked(a: seq<Archive>, i: nat, start: nat, cutoff: int, passed: set<string>, vanished: set<string>)
    requires Distinct(a) && i < |a| && a[i].name !in vanished
    ensures var behind := KeepFrom(a, i + 1, start, cutoff, passed);
            Without(Without(a[..i + 1] + behind, vanished), {a[i].name}) == Without(a[..i] + behind, vanished)
  {
    hide KeepFrom, Without;
    var behind, name := KeepFrom(a, i + 1, start, cutoff, passed), a[i].name;
    Slices(a, i, behind);
    KeptNames(a, i + 1, start, cutoff, passed, name);
    WithoutConcat(a[..i], [a[i]] + behind, vanished);
    WithoutConcat([a[i]], behind, vanished);
    WithoutConcat(a[..i], behind, vanished);
    WithoutSingle(a[i], vanished);
    WithoutSingle(a[i], {name});
    WithoutConcat(Without(a[..i], vanished), [a[i]] + Without(behind, vanished), {name});
    WithoutConcat([a[i]], Without(behind, vanished), {name});
    WithoutOne(a[..i], vanished, name);
    WithoutOne(behind, vanished, name);
  }

  lemma WithoutSingle(x: Archive, gone: set<string>)
    ensures Without([x], gone) == if x.name in gone then [] else [x]
  {
    assert [x][1..] == [];
  }

  lemma NoneBehind(a: seq<Archive>, start: nat, cutoff: int, passed: set<string>)
    ensures a[..|a|] + KeepFrom(a, |a|, start, cutoff, passed) == a && GoneFrom(a, |a|, start, cutoff, passed) == []
  {
  }

  lemma Slices(a: seq<Archive>, i: nat, rest: seq<Archive>)
    requires i < |a|
    ensures var all := a[..i + 1] + rest; all[..i] == a[..i] && all[i] == a[i] && all[i + 1..] == rest && |all| == i + 1 + |rest|
    ensures a[..i + 1] + rest == a[..i] + ([a[i]] + rest)
  {
  }

  /** An archive behind the floor goes if it is doomed and another one is left. */
  lemma OneBack(a: seq<Archive>, i: nat, start: nat, cutoff: int, passed: set<string>)
    requires start <= i < |a|
    ensures var goes := Doomed(a[i], cutoff, passed) && (i > 0 || KeepFrom(a, i + 1, start, cutoff, passed) != []);
            && KeepFrom(a, i, start, cutoff, passed) == (if goes then [] else [a[i]]) + KeepFrom(a, i + 1, start, cutoff, passed)
            && GoneFrom(a, i, start, cutoff, passed) == GoneFrom(a, i + 1, start, cutoff, passed) + if goes then [a[i].name] else []
  {
    hide Doomed;
    NothingKept(a, i + 1, start, cutoff, passed);
  }

  /** In front of the floor everything stays. */
  lemma {:induction false} FloorKept(a: seq<Archive>, i: nat, start: nat, cutoff: int, passed: set<string>)
    requires i <= |a| && i <= start
    ensures KeepFrom(a, 0, start, cutoff, passed) == a[..i] + KeepFrom(a, i, start, cutoff, passed)
    ensures GoneFrom(a, 0, start, cutoff, passed) == GoneFrom(a, i, start, cutoff, passed)
  {
    if i > 0 {
      FloorKept(a, i - 1, start, cutoff, passed);
      assert a[..i] == a[..i - 1] + [a[i - 1]];
    }
  }
}

/** What retention promises: nothing but what is old and outside the floor goes, something always stays, and the count is bounded. */
module RetentionLaws {
  import opened Wrappers
  import opened Retention

  /** The elements of a pruned directory, by where they came from. */
  lemma {:induction false} KeptFrom(a: seq<Archive>, i: nat, start: nat, cutoff: int, passed: set<string>, k: nat) returns (j: nat)
    requires i <= |a| && k < |KeepFrom(a, i, start, cutoff, passed)|
    ensures i + k <= j < |a| && a[j] == KeepFrom(a, i, start, cutoff, passed)[k] && !Goes(a, j, start, cutoff, passed)
    decreases |a| - i
  {
    hide Goes;
    if Goes(a, i, start, cutoff, passed) {
      j := KeptFrom(a, i + 1, start, cutoff, passed, k);
    } else if k == 0 {
      j := i;
    } else {
      j := KeptFrom(a, i + 1, start, cutoff, passed, k - 1);
    }
  }

  lemma {:induction false} KeptStays(a: seq<Archive>, i: nat, start: nat, cutoff: int, passed: set<string>, j: nat) returns (k: nat)
    requires i <= j < |a| && !Goes(a, j, start, cutoff, passed)
    ensures k < |KeepFrom(a, i, start, cutoff, passed)| && KeepFrom(a, i, start, cutoff, passed)[k] == a[j]
    decreases |a| - i
  {
    hide Goes;
    if i == j {
      k := 0;
    } else {
      k := KeptStays(a, i + 1, start, cutoff, passed, j);
      k := if Goes(a, i, start, cutoff, passed) then k else k + 1;
    }
  }

  /** The elements of a filtered sequence, by where they came from. */
  lemma {:induction false} WithoutFrom(a: seq<Archive>, gone: set<string>, k: nat) returns (j: nat)
    requires k < |Without(a, gone)|
    ensures k <= j < |a| && a[j] == Without(a, gone)[k] && a[j].name !in gone
  {
    if a[0].name in gone {
      j := WithoutFrom(a[1..], gone, k);
      j := j + 1;
    } else if k == 0 {
      j := 0;
    } else {
      j := WithoutFrom(a[1..], gone, k - 1);
      j := j + 1;
    }
  }

  lemma {:induction false} WithoutStays(a: seq<Archive>, gone: set<string>, j: nat)
    requires j < |a| && a[j].name !in gone
    ensures a[j] in Without(a, gone)
  {
    if j > 0 {
      WithoutStays(a[1..], gone, j - 1);
    }
  }

  /** The elements of a pruned directory, by where they came from. */
  lemma PrunedFrom(a: seq<Archive>, keepMin: int, cutoff: int, stuck: set<string>, vanished: set<string>, k: nat) returns (j: nat)
    requires k < |Pruned(a, keepMin, cutoff, stuck, vanished)|
    ensures k <= j < |a| && a[j] == Pruned(a, keepMin, cutoff, stuck, vanished)[k] && a[j].name !in vanished
    ensures !Goes(a, j, Start(|a|, keepMin), cutoff, stuck + vanished)
  {
    hide Goes;
    j := WithoutFrom(Remaining(a, keepMin, cutoff, stuck + vanished), vanished, k);
    j := KeptFrom(a, 0, Start(|a|, keepMin), cutoff, stuck + vanished, j);
  }

  lemma PrunedStays(a: seq<Archive>, keepMin: int, cutoff: int, stuck: set<string>, vanished: set<string>, j: nat)
    requires j < |a| && a[j].name !in vanished && !Goes(a, j, Start(|a|, keepMin), cutoff, stuck + vanished)
    ensures a[j] in Pruned(a, keepMin, cutoff, stuck, vanished)
  {
    hide Goes;
    var k := KeptStays(a, 0, Start(|a|, keepMin), cutoff, stuck + vanished, j);
    WithoutStays(Remaining(a, keepMin, cutoff, stuck + vanished), vanished, k);
  }

  /**
   With a floor of at least one, what is missing in the end is exactly what others took away and what
   is outside the newest `keepMin` names of the listing, past the window, and not stuck.
   */
  lemma ExactlyTheExpired(a: seq<Archive>, keepMin: nat, cutoff: int, stuck: set<string>, vanished: set<string>, i: nat)
    requires Distinct(a) && keepMin >= 1 && i < |a|
    ensures a[i] !in Pruned(a, keepMin, cutoff, stuck, vanished)
            <==> a[i].name in vanished || (i >= keepMin && a[i].mtime < cutoff && a[i].name !in stuck)
  {
    hide Pruned;
    var d := Pruned(a, keepMin, cutoff, stuck, vanished);
    if a[i] in d {
      var k :| 0 <= k < |d| && d[k] == a[i];
      var j := PrunedFrom(a, keepMin, cutoff, stuck, vanished, k);
      SameName(a, i, j);
    } else if a[i].name !in vanished {
      if !Goes(a, i, Start(|a|, keepMin), cutoff, stuck + vanished) {
        PrunedStays(a, keepMin, cutoff, stuck, vanished, i);
      }
    }
  }

  lemma SameName(a: seq<Archive>, i: nat, j: nat)
    requires Distinct(a) && i < |a| && j < |a| && a[i].name == a[j].name
    ensures i == j
  {
  }

  /** In front of the floor, inside the window, or not to be removed. */
  predicate Protected(a: seq<Archive>, i: nat, keepMin: int, cutoff: int, stuck: set<string>)
    requires i < |a|
  {
    i < Start(|a|, keepMin) || a[i].mtime >= cutoff || a[i].name in stuck
  }

  /**
   Whatever the floor and whatever happens: something is left exactly if nothing of the listing was
   taken away by others, or something that was not is protected.
   */
  lemma SomethingIsLeft(a: seq<Archive>, keepMin: int, cutoff: int, stuck: set<string>, vanished: set<string>)
    requires a != []
    ensures Pruned(a, keepMin, cutoff, stuck, vanished) != []
            <==> (forall i | 0 <= i < |a| :: a[i].name !in vanished)
                 || exists i | 0 <= i < |a| :: a[i].name !in vanished && Protected(a, i, keepMin, cutoff, stuck)
  {
    hide Pruned;
    var start := Start(|a|, keepMin);
    var d := Pruned(a, keepMin, cutoff, stuck, vanished);
    if i :| 0 <= i < |a| && a[i].name !in vanished && Protected(a, i, keepMin, cutoff, stuck) {
      PrunedStays(a, keepMin, cutoff, stuck, vanished, i);
    } else if forall i | 0 <= i < |a| :: a[i].name !in vanished {
      PrunedStays(a, keepMin, cutoff, stuck, vanished, 0);
    } else {
      if d != [] {
        var j := PrunedFrom(a, keepMin, cutoff, stuck, vanished, 0);
        LastOneGoes(a, keepMin, cutoff, stuck, vanished, j);
      }
    }
  }

  /** The guard against an empty directory is of no use once something has vanished. */
  lemma LastOneGoes(a: seq<Archive>, keepMin: int, cutoff: int, stuck: set<string>, vanished: set<string>, j: nat)
    requires j < |a| && a[j].name !in vanished && !Protected(a, j, keepMin, cutoff, stuck)
    requires exists i | 0 <= i < |a| :: a[i].name in vanished
    ensures Goes(a, j, Start(|a|, keepMin), cutoff, stuck + vanished)
  {
    var i :| 0 <= i < |a| && a[i].name in vanished;
    if j == 0 {
      assert i > 0 && !Doomed(a[i], cutoff, stuck + vanished);
    }
  }

  /** So, as long as nobody else removes archives at the same time, a directory that held one still holds one. */
  lemma NeverEmptied(a: seq<Archive>, keepMin: int, cutoff: int, stuck: set<string>, vanished: set<string>)
    requires a != [] && forall i | 0 <= i < |a| :: a[i].name !in vanished
    ensures Pruned(a, keepMin, cutoff, stuck, vanished) != []
  {
    hide Pruned;
    SomethingIsLeft(a, keepMin, cutoff, stuck, vanished);
  }

  /** If somebody does, a prune can empty it, with the floor at zero and with the floor at one. */
  lemma VanishedCanEmpty(a: Archive, b: Archive, cutoff: int)
    requires a.name != b.name && a.mtime < cutoff && b.mtime < cutoff
    ensures Pruned([a, b], 0, cutoff, {}, {b.name}) == [] && Pruned([a, b], 1, cutoff, {}, {a.name}) == []
  {
    hide Pruned;
    SomethingIsLeft([a, b], 0, cutoff, {}, {b.name});
    SomethingIsLeft([a, b], 1, cutoff, {}, {a.name});
    assert [a, b][0] == a && [a, b][1] == b;
  }

  lemma {:induction false} AllKept(a: seq<Archive>, i: nat, start: nat, cutoff: int, passed: set<string>)
    requires i <= |a| && forall j | i <= j < |a| :: !Goes(a, j, start, cutoff, passed)
    ensures KeepFrom(a, i, start, cutoff, passed) == a[i..]
    decreases |a| - i
  {
    hide Goes;
    if i < |a| {
      AllKept(a, i + 1, start, cutoff, passed);
      assert a[i..] == [a[i]] + a[i + 1..];
    }
  }

  /** Behind the floor only archives are left that are not doomed, or it is the last one. */
  lemma WhatIsLeft(a: seq<Archive>, keepMin: nat, cutoff: int, stuck: set<string>, vanished: set<string>, k: nat)
    requires k < |Pruned(a, keepMin, cutoff, stuck, vanished)|
    ensures k < keepMin || !Doomed(Pruned(a, keepMin, cutoff, stuck, vanished)[k], cutoff, stuck)
            || (k == 0 && |Pruned(a, keepMin, cutoff, stuck, vanished)| == 1)
  {
    var passed := stuck + vanished;
    var start := Start(|a|, keepMin);
    var j := PrunedFrom(a, keepMin, cutoff, stuck, vanished, k);
    if j >= start && Doomed(a[j], cutoff, stuck) {
      assert j == 0 && forall m | 0 < m < |a| :: Doomed(a[m], cutoff, passed) && m >= start;
      NothingKept(a, 1, start, cutoff, passed);
      assert Remaining(a, keepMin, cutoff, passed) == [a[0]];
      WithoutSingle(a[0], vanished);
    }
  }

  lemma {:induction false} WithoutNothing(a: seq<Archive>)
    ensures Without(a, {}) == a
  {
    if a != [] {
      WithoutNothing(a[1..]);
    }
  }

  /** A second prune at the same time, with the same floor, removes nothing, whatever the first one met. */
  lemma PruneAgain(a: seq<Archive>, keepMin: nat, cutoff: int, stuck: set<string>, vanished: set<string>)
    ensures var d := Pruned(a, keepMin, cutoff, stuck, vanished); Pruned(d, keepMin, cutoff, stuck, {}) == d
  {
    hide Doomed;
    var d := Pruned(a, keepMin, cutoff, stuck, vanished);
    assert stuck + {} == stuck;
    forall k | 0 <= k < |d| ensures !Goes(d, k, Start(|d|, keepMin), cutoff, stuck) {
      WhatIsLeft(a, keepMin, cutoff, stuck, vanished, k);
    }
    AllKept(d, 0, Start(|d|, keepMin), cutoff, stuck);
    assert d[0..] == d;
    WithoutNothing(d);
  }

  // ---------------------------------------------------------------------------------------------
  // Scheduled ticks alone
  // ---------------------------------------------------------------------------------------------

  /** Any two archives are at least an interval apart, the newer one first, and none is from the future. */
  predicate Spaced(a: seq<Archive>, interval: int, now: int) {
    && (forall i, j | 0 <= i < j < |a| :: a[i].mtime - a[j].mtime >= interval)
    && forall i | 0 <= i < |a| :: a[i].mtime <= now
  }

  lemma {:induction false} SpacedAdds(a: seq<Archive>, interval: int, now: int)
    requires Spaced(a, interval, now) && a != []
    ensures a[0].mtime - a[|a| - 1].mtime >= interval * (|a| - 1)
  {
    if |a| > 1 {
      var n := |a| - 1;
      SpacedAdds(a[..n], interval, now);
      assert a[n - 1].mtime - a[n].mtime >= interval;
      assert interval * n == interval * (n - 1) + interval;
    }
  }

  lemma PrependSpaced(x: Archive, rest: seq<Archive>, interval: int, now: int)
    requires Spaced(rest, interval, now) && x.mtime <= now && forall m | 0 <= m < |rest| :: x.mtime - rest[m].mtime >= interval
    ensures Spaced([x] + rest, interval, now)
  {
  }

  lemma TailSpaced(a: seq<Archive>, i: nat, interval: int, now: int)
    requires Spaced(a, interval, now) && i <= |a|
    ensures Spaced(a[i..], interval, now)
    ensures i < |a| ==> a[i].mtime <= now && forall j | i < j < |a| :: a[i].mtime - a[j].mtime >= interval
  {
  }

  lemma {:induction false} WithoutKeepsSpaced(a: seq<Archive>, gone: set<string>, interval: int, now: int)
    requires Spaced(a, interval, now)
    ensures Spaced(Without(a, gone), interval, now)
  {
    hide Spaced;
    if a == [] {
      NoneSpaced(interval, now);
    } else {
      TailSpaced(a, 1, interval, now);
      TailSpaced(a, 0, interval, now);
      WithoutKeepsSpaced(a[1..], gone, interval, now);
      if a[0].name !in gone {
        var rest := Without(a[1..], gone);
        forall m | 0 <= m < |rest| ensures a[0].mtime - rest[m].mtime >= interval {
          var j := WithoutFrom(a[1..], gone, m);
          assert a[1..][j] == a[j + 1];
        }
        PrependSpaced(a[0], rest, interval, now);
      } else {
        assert Without(a, gone) == Without(a[1..], gone);
      }
    }
  }

  lemma NoneSpaced(interval: int, now: int)
    ensures Spaced([], interval, now)
  {
  }

  lemma PruneKeepsSpaced(a: seq<Archive>, interval: int, now: int, keepMin: int, cutoff: int, stuck: set<string>, vanished: set<string>)
    requires Spaced(a, interval, now)
    ensures Spaced(Pruned(a, keepMin, cutoff, stuck, vanished), interval, now)
  {
    hide Spaced;
    KeepKeepsSpaced(a, 0, Start(|a|, keepMin), interval, now, cutoff, stuck + vanished);
    WithoutKeepsSpaced(Remaining(a, keepMin, cutoff, stuck + vanished), vanished, interval, now);
  }

  lemma {:induction false} KeepKeepsSpaced(a: seq<Archive>, i: nat, start: nat, interval: int, now: int, cutoff: int, passed: set<string>)
    requires i <= |a| && Spaced(a, interval, now)
    ensures Spaced(KeepFrom(a, i, start, cutoff, passed), interval, now)
    decreases |a| - i
  {
    hide Goes, Spaced;
    if i == |a| {
      NoneSpaced(interval, now);
    } else {
      KeepKeepsSpaced(a, i + 1, start, interval, now, cutoff, passed);
      TailSpaced(a, i, interval, now);
      var rest := KeepFrom(a, i + 1, start, cutoff, passed);
      if Goes(a, i, start, cutoff, passed) {
        assert KeepFrom(a, i, start, cutoff, passed) == rest;
      } else {
        forall m | 0 <= m < |rest| ensures a[i].mtime - rest[m].mtime >= interval {
          var j := KeptFrom(a, i + 1, start, cutoff, passed, m);
        }
        PrependSpaced(a[i], rest, interval, now);
      }
    }
  }

  /** A clock that does not go back: look at everything, write, prune, and the next tick after that. */
  predicate InTime(ticks: seq<Tick>) {
    && (forall i | 0 <= i < |ticks| ::
          ticks[i].checkedAt <= ticks[i].prunedAt
          && ticks[i].unread == {}
          && (ticks[i].written.Some? ==> ticks[i].checkedAt <= ticks[i].written.value.mtime <= ticks[i].prunedAt))
    && forall i | 0 < i < |ticks| :: ticks[i - 1].prunedAt <= ticks[i].checkedAt
  }

  function AfterTicks(start: seq<Archive>, s: Schedule, ticks: seq<Tick>): seq<Archive> {
    if ticks == [] then start else Ticked(AfterTicks(start, s, ticks[..|ticks| - 1]), s, ticks[|ticks| - 1])
  }

  lemma {:induction false} TicksSpace(start: seq<Archive>, s: Schedule, ticks: seq<Tick>)
    requires InTime(ticks) && (ticks != [] ==> Spaced(start, s.intervalHours * HOUR, ticks[0].checkedAt))
    ensures ticks != [] ==> Spaced(AfterTicks(start, s, ticks), s.intervalHours * HOUR, ticks[|ticks| - 1].prunedAt)
  {
    hide Pruned;
    if ticks != [] {
      var n := |ticks| - 1;
      TicksSpace(start, s, ticks[..n]);
      var a, tick := AfterTicks(start, s, ticks[..n]), ticks[n];
      var interval := s.intervalHours * HOUR;
      assert Spaced(a, interval, tick.checkedAt);
      var grown := if Creates(a, s, tick) then [tick.written.value] + a else a;
      assert Spaced(grown, interval, tick.prunedAt);
      PruneKeepsSpaced(grown, interval, tick.prunedAt, s.keepMin, tick.prunedAt - s.retentionDays * DAY, tick.stuck, tick.vanished);
    }
  }

  lemma Times(a: int, b: int, d: int)
    requires a <= b && d >= 0
    ensures a * d <= b * d
  {
    assert (b - a) * d >= 0;
  }

  lemma Quotient(n: int, interval: int, window: int)
    requires interval > 0 && n * interval <= window
    ensures n <= window / interval
  {
    if n > window / interval {
      Times(window / interval + 1, n, interval);
    }
  }

  lemma InHours(days: int, hours: int)
    requires hours > 0 && days >= 0
    ensures (days * DAY) / (hours * HOUR) == (24 * days) / hours
  {
    var q, r := (24 * days) / hours, (24 * days) % hours;
    assert days * DAY == 24 * days * HOUR == (q * hours + r) * HOUR == q * (hours * HOUR) + r * HOUR;
    assert 0 <= r * HOUR < hours * HOUR;
    DivIs(days * DAY, hours * HOUR, q, r * HOUR);
  }

  lemma DivIs(x: int, d: int, q: int, r: int)
    requires d > 0 && x == q * d + r && 0 <= r < d
    ensures x / d == q
  {
    var e := x / d;
    if e < q {
      Times(e + 1, q, d);
    } else if e > q {
      Times(q + 1, e, d);
    }
  }

  /**
   From any directory whose archives are an interval apart, an empty one above all: if only scheduled
   ticks make archives, and none of them fails to inspect one, there are, after a prune in which nothing
   was stuck, never more than the floor or what the window can hold, one every interval, whatever others
   take away.
   */
  lemma CountIsBounded(start: seq<Archive>, s: Schedule, ticks: seq<Tick>)
    requires InTime(ticks) && ticks != [] && s.keepMin >= 1 && s.intervalHours > 0 && s.retentionDays >= 0
    requires Spaced(start, s.intervalHours * HOUR, ticks[0].checkedAt)
    requires ticks[|ticks| - 1].trustworthy && ticks[|ticks| - 1].stuck == {}
    ensures |AfterTicks(start, s, ticks)| <= s.keepMin || |AfterTicks(start, s, ticks)| <= (24 * s.retentionDays) / s.intervalHours + 1
  {
    hide InTime, Spaced, Pruned;
    var n := |ticks| - 1;
    var tick, before := ticks[n], AfterTicks(start, s, ticks[..n]);
    var grown := if Creates(before, s, tick) then [tick.written.value] + before else before;
    var a := AfterTicks(start, s, ticks);
    var cutoff := tick.prunedAt - s.retentionDays * DAY;
    assert a == Pruned(grown, s.keepMin, cutoff, {}, tick.vanished);
    TicksSpace(start, s, ticks);
    if |a| > s.keepMin {
      WhatIsLeft(grown, s.keepMin, cutoff, {}, tick.vanished, |a| - 1);
      var interval := s.intervalHours * HOUR;
      SpacedAdds(a, interval, tick.prunedAt);
      NotFromTheFuture(a, interval, tick.prunedAt);
      assert interval > 0;
      assert (|a| - 1) * interval <= s.retentionDays * DAY;
      Quotient(|a| - 1, interval, s.retentionDays * DAY);
      InHours(s.retentionDays, s.intervalHours);
    }
  }

  lemma NotFromTheFuture(a: seq<Archive>, interval: int, now: int)
    requires Spaced(a, interval, now) && a != []
    ensures a[0].mtime <= now
  {
  }
}
