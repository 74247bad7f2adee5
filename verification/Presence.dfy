/** Presence evidence and playtime: lib/palwarden_presence.py, with every transaction as one step. */
module Presence {
  import opened Wrappers
  import opened Text

  const MAX_GAP_MS := 60_000

  // ---------------------------------------------------------------------------------------------
  // Identities and sessions
  // ---------------------------------------------------------------------------------------------

  /** One entry of the players list; an absent text field is the empty string. */
  datatype Player = Player(playerId: string, userId: string, name: string, level: Option<int>)

  datatype Identity = Identity(steam: Option<string>, name: string, level: Option<int>, firstSeen: int, lastSeen: int, totalPlay: int)

  datatype Session = Session(uid: string, started: int, lastSeen: int, samples: nat)

  /** `sessions` in row order. */
  datatype Book = Book(identities: map<string, Identity>, sessions: seq<Session>)

  const EMPTY_BOOK := Book(map[], [])

  /** A player listed at a time; the grace is that of the observer who listed them. */
  datatype Sighting = Sighting(player: Player, at: int, grace: int)

  function Uid(p: Player): string {
    Strip(p.playerId)
  }

  /** What the server lists while a player is still loading. */
  predicate Placeholder(uid: string) {
    uid == "None" || forall i | 0 <= i < |uid| :: uid[i] == '0'
  }

  predicate IsTop(sessions: seq<Session>, uid: string, p: int) {
    && 0 <= p < |sessions| && sessions[p].uid == uid
    && (forall i | 0 <= i < p && sessions[i].uid == uid :: sessions[i].lastSeen <= sessions[p].lastSeen)
    && (forall i | p < i < |sessions| && sessions[i].uid == uid :: sessions[i].lastSeen < sessions[p].lastSeen)
  }

  /** The session seen last; of several, the latest row. */
  function Top(sessions: seq<Session>, uid: string): (p: Option<nat>)
    ensures p.Some? ==> IsTop(sessions, uid, p.value)
    ensures p.None? ==> forall i | 0 <= i < |sessions| :: sessions[i].uid != uid
  {
    if sessions == [] then None
    else
      var n := |sessions| - 1;
      var before := Top(sessions[..n], uid);
      if sessions[n].uid != uid || (before.Some? && sessions[n].lastSeen < sessions[before.value].lastSeen) then before
      else Some(n)
  }

  function Met(known: Option<Identity>, s: Sighting): Identity {
    var stripped := Strip(s.player.userId);
    var steam := if stripped == "" then None else Some(stripped);
    match known
    case None => Identity(steam, s.player.name, s.player.level, s.at, s.at, 0)
    case Some(who) =>
      who.(steam := if steam.Some? then steam else who.steam, name := s.player.name,
           level := if s.player.level.Some? then s.player.level else who.level, lastSeen := s.at)
  }

  function Known(b: Book, uid: string): Option<Identity> {
    if uid in b.identities then Some(b.identities[uid]) else None
  }

  /** Does this sighting carry on the session it finds? */
  predicate Continues(b: Book, s: Sighting) {
    var top := Top(b.sessions, Uid(s.player));
    top.Some? && 0 <= s.at - b.sessions[top.value].lastSeen <= s.grace
  }

  function Sight(b: Book, s: Sighting): Book {
    var uid := Uid(s.player);
    if Placeholder(uid) then b
    else
      var who := Met(Known(b, uid), s);
      if Continues(b, s) then
        var p := Top(b.sessions, uid).value;
        var was := b.sessions[p];
        Book(b.identities[uid := who.(totalPlay := who.totalPlay + s.at - was.lastSeen)],
             b.sessions[p := was.(lastSeen := s.at, samples := was.samples + 1)])
      else Book(b.identities[uid := who], b.sessions + [Session(uid, s.at, s.at, 1)])
  }

  function SightAll(b: Book, all: seq<Sighting>): Book {
    if all == [] then b else Sight(SightAll(b, all[..|all| - 1]), all[|all| - 1])
  }

  function Listed(players: seq<Player>, at: int, grace: int): seq<Sighting> {
    seq(|players|, i requires 0 <= i < |players| => Sighting(players[i], at, grace))
  }

  /** How many of the players have a real identity. */
  function Seen(players: seq<Player>): nat {
    if players == [] then 0
    else Seen(players[..|players| - 1]) + if Placeholder(Uid(players[|players| - 1])) then 0 else 1
  }

  lemma SightLast(b: Book, players: seq<Player>, i: nat, at: int, grace: int)
    requires i < |players|
    ensures SightAll(b, Listed(players[..i + 1], at, grace))
            == Sight(SightAll(b, Listed(players[..i], at, grace)), Sighting(players[i], at, grace))
    ensures Seen(players[..i + 1]) == Seen(players[..i]) + if Placeholder(Uid(players[i])) then 0 else 1
  {
    hide Sight, Uid, Placeholder;
    assert players[..i + 1][..i] == players[..i];
    assert Listed(players[..i + 1], at, grace)[..i] == Listed(players[..i], at, grace);
  }

  // ---------------------------------------------------------------------------------------------
  // The presence row and the fence
  // ---------------------------------------------------------------------------------------------

  datatype Row = Row(lastSuccess: Option<int>, valid: bool, emptySince: Option<int>, issued: int, applied: int)

  datatype Presence = Presence(row: Row, book: Book)

  const INITIAL := Presence(Row(None, false, None, 0, 0), EMPTY_BOOK)

  datatype Event =
    | Reserve
    | Arrive(number: int, ok: bool, players: seq<Player>, at: int, grace: int)
    | Invalidate

  predicate Recent(row: Row, at: int) {
    row.valid && row.lastSuccess.Some? && 0 <= at - row.lastSuccess.value <= MAX_GAP_MS
  }

  /** The row after an observation that passed the fence. */
  function Observed(row: Row, number: int, ok: bool, occupied: bool, at: int): Row {
    if !ok then row.(valid := false, emptySince := None, applied := number)
    else
      var since := if occupied then None else if Recent(row, at) && row.emptySince.Some? then row.emptySince else Some(at);
      row.(lastSuccess := Some(at), valid := true, emptySince := since, applied := number)
  }

  function Apply(s: Presence, e: Event): Presence {
    match e
    case Reserve => s.(row := s.row.(issued := s.row.issued + 1))
    case Invalidate => s.(row := s.row.(valid := false, emptySince := None))
    case Arrive(number, ok, players, at, grace) =>
      if number <= s.row.applied then s
      else Presence(Observed(s.row, number, ok, players != [], at), if ok then SightAll(s.book, Listed(players, at, grace)) else s.book)
  }

  function After(events: seq<Event>): Presence {
    if events == [] then INITIAL else Apply(After(events[..|events| - 1]), events[|events| - 1])
  }

  class Store {
    var lastSuccess: Option<int>
    var valid: bool
    var emptySince: Option<int>
    var issued: int
    var applied: int
    var identities: map<string, Identity>
    var sessions: seq<Session>

    function State(): Presence
      reads this
    {
      Presence(Row(lastSuccess, valid, emptySince, issued, applied), Book(identities, sessions))
    }

    constructor ()
      ensures State() == INITIAL
    {
      lastSuccess, valid, emptySince, issued, applied := None, false, None, 0, 0;
      identities, sessions := map[], [];
    }

    method ReserveObservation() returns (number: int)
      modifies this
      ensures State() == Apply(old(State()), Reserve)
      ensures number == issued
    {
      issued := issued + 1;
      number := issued;
    }

    method InvalidateEvidence()
      modifies this
      ensures State() == Apply(old(State()), Invalidate)
    {
      valid, emptySince := false, None;
    }

    method ApplyObservation(number: int, ok: bool, players: seq<Player>, at: int, grace: int) returns (took: bool, seen: nat)
      modifies this
      ensures State() == Apply(old(State()), Arrive(number, ok, players, at, grace))
      ensures took == (number > old(applied))
      ensures seen == if took && ok then Seen(players) else 0
    {
      if number <= applied {
        return false, 0;
      }
      if !ok {
        valid, emptySince := false, None;
      } else {
        if |players| == 0 {
          var recent := valid && lastSuccess.Some? && 0 <= at - lastSuccess.value <= MAX_GAP_MS;
          emptySince := if recent && emptySince.Some? then emptySince else Some(at);
        } else {
          emptySince := None;
        }
        valid, lastSuccess := true, Some(at);
      }
      applied := number;
      took, seen := true, 0;
      if ok {
        seen := RecordIdentities(players, at, grace);
      }
    }

    method RecordIdentities(players: seq<Player>, at: int, grace: int) returns (seen: nat)
      modifies this`identities, this`sessions
      ensures Book(identities, sessions) == SightAll(old(Book(identities, sessions)), Listed(players, at, grace))
      ensures seen == Seen(players)
    {
      hide Top, Strip, Placeholder, SightAll, Seen, Listed;
      ghost var start := Book(identities, sessions);
      seen := 0;
      Unlisted(start, players, at, grace);
      for i := 0 to |players|
        invariant Book(identities, sessions) == SightAll(start, Listed(players[..i], at, grace))
        invariant seen == Seen(players[..i])
      {
        SightLast(start, players, i, at, grace);
        ghost var before := Book(identities, sessions);
        var player := players[i];
        var uid := Uid(player);
        if Placeholder(uid) {
          continue;
        }
        seen := seen + 1;
        var sighting := Sighting(player, at, grace);
        var who := Met(if uid in identities then Some(identities[uid]) else None, sighting);
        identities := identities[uid := who];
        var top := Top(sessions, uid);
        if top.Some? && 0 <= at - sessions[top.value].lastSeen <= grace {
          var session := sessions[top.value];
          var delta := at - session.lastSeen;
          sessions := sessions[top.value := session.(lastSeen := at, samples := session.samples + 1)];
          identities := identities[uid := who.(totalPlay := who.totalPlay + delta)];
        } else {
          sessions := sessions + [Session(uid, at, at, 1)];
        }
        assert Book(identities, sessions) == Sight(before, sighting);
      }
      assert players[..|players|] == players;
    }
  }

  lemma Unlisted(b: Book, players: seq<Player>, at: int, grace: int)
    ensures SightAll(b, Listed(players[..0], at, grace)) == b && Seen(players[..0]) == 0
  {
  }
}

/** What the evidence and the playtime mean, over every history of reservations, arrivals and invalidations. */
module PresenceEvidence {
  import opened Wrappers
  import opened Presence

  // ---------------------------------------------------------------------------------------------
  // The fence
  // ---------------------------------------------------------------------------------------------

  /** Has this arrival a higher number than every arrival before it? */
  predicate Newest(events: seq<Event>, i: nat)
    requires i < |events| && events[i].Arrive?
  {
    events[i].number > 0 && forall j | 0 <= j < i && events[j].Arrive? :: events[j].number < events[i].number
  }

  /** The history without the arrivals that came too late. */
  function Live(events: seq<Event>): seq<Event> {
    if events == [] then []
    else
      var n := |events| - 1;
      if events[n].Arrive? && !Newest(events, n) then Live(events[..n]) else Live(events[..n]) + [events[n]]
  }

  /** The number of the latest arrival that was applied is the highest that arrived. */
  lemma {:induction false} AppliedIsHighest(events: seq<Event>)
    ensures After(events).row.applied >= 0
    ensures forall j | 0 <= j < |events| && events[j].Arrive? :: events[j].number <= After(events).row.applied
    ensures After(events).row.applied > 0 ==>
              exists j :: 0 <= j < |events| && events[j].Arrive? && events[j].number == After(events).row.applied
  {
    hide SightAll, Listed;
    if events != [] {
      var n := |events| - 1;
      var before := events[..n];
      AppliedIsHighest(before);
      var applied := After(before).row.applied;
      if applied > 0 {
        var j :| 0 <= j < n && before[j].Arrive? && before[j].number == applied;
        assert events[j] == before[j];
      }
      forall j | 0 <= j < |events| && events[j].Arrive?
        ensures events[j].number <= After(events).row.applied
      {
        assert j < n ==> before[j] == events[j];
      }
      if events[n].Arrive? && events[n].number > applied {
        assert events[n].number == After(events).row.applied;
      }
    }
  }

  /** An arrival is applied exactly if it is the newest so far. */
  lemma {:induction false} AppliedIffNewest(events: seq<Event>)
    requires events != [] && events[|events| - 1].Arrive?
    ensures var n := |events| - 1; events[n].number > After(events[..n]).row.applied <==> Newest(events, n)
  {
    hide After;
    var n := |events| - 1;
    var before := events[..n];
    AppliedIsHighest(before);
    if Newest(events, n) {
      forall j | 0 <= j < n && before[j].Arrive? ensures before[j].number < events[n].number {
        assert before[j] == events[j];
      }
    } else if events[n].number > 0 {
      var j :| 0 <= j < n && events[j].Arrive? && events[j].number >= events[n].number;
      assert before[j] == events[j];
    }
  }

  /** Late and repeated arrivals might as well never have come. */
  lemma {:induction false} FenceRefines(events: seq<Event>)
    ensures After(events) == After(Live(events))
  {
    hide Apply, Newest;
    if events != [] {
      var n := |events| - 1;
      FenceRefines(events[..n]);
      if events[n].Arrive? {
        AppliedIffNewest(events);
        RefusedChangesNothing(After(events[..n]), events[n]);
      }
      if !(events[n].Arrive? && !Newest(events, n)) {
        var live := Live(events);
        assert live[..|live| - 1] == Live(events[..n]) && live[|live| - 1] == events[n];
      }
    }
  }

  lemma RefusedChangesNothing(s: Presence, e: Event)
    requires e.Arrive?
    ensures e.number <= s.row.applied ==> Apply(s, e) == s
  {
    hide SightAll;
  }

  function Reserved(events: seq<Event>): nat {
    if events == [] then 0
    else Reserved(events[..|events| - 1]) + if events[|events| - 1].Reserve? then 1 else 0
  }

  /** Every arrival carries a number that was handed out before it. */
  predicate NumbersReserved(events: seq<Event>) {
    forall i | 0 <= i < |events| && events[i].Arrive? :: 1 <= events[i].number <= Reserved(events[..i])
  }

  /** The fence never gets ahead of the reservations, so the next number always passes it. */
  lemma {:induction false} NeverAhead(events: seq<Event>)
    requires NumbersReserved(events)
    ensures 0 <= After(events).row.applied <= After(events).row.issued == Reserved(events)
  {
    hide SightAll, Listed;
    if events != [] {
      var n := |events| - 1;
      var before := events[..n];
      forall i | 0 <= i < n && before[i].Arrive? ensures 1 <= before[i].number <= Reserved(before[..i]) {
        assert before[i] == events[i] && before[..i] == events[..i];
      }
      NeverAhead(before);
    }
  }

  // ---------------------------------------------------------------------------------------------
  // Evidence of an empty server
  // ---------------------------------------------------------------------------------------------

  /** What an applied observation or an invalidation says about the server. */
  datatype Mark = Lost | Occupied(at: int) | Empty(at: int)

  function MarkOf(e: Event): seq<Mark> {
    match e
    case Reserve => []
    case Invalidate => [Lost]
    case Arrive(_, ok, players, at, _) => [if !ok then Lost else if players == [] then Empty(at) else Occupied(at)]
  }

  function Marks(events: seq<Event>): seq<Mark> {
    if events == [] then [] else Marks(events[..|events| - 1]) + MarkOf(events[|events| - 1])
  }

  predicate Follows(m: seq<Mark>, i: int)
    requires 0 < i < |m|
  {
    m[i].Empty? && m[i - 1].Empty? && 0 <= m[i].at - m[i - 1].at <= MAX_GAP_MS
  }

  /** From `k` on there are only empty lists, each soon after the one before. */
  predicate EmptyFrom(m: seq<Mark>, k: int) {
    0 <= k < |m| && m[k].Empty? && forall i | k < i < |m| :: Follows(m, i)
  }

  predicate Longest(m: seq<Mark>, k: int) {
    EmptyFrom(m, k) && (k > 0 ==> !EmptyFrom(m, k - 1))
  }

  /** The row as it follows from the marks, with no reference to how it came about. */
  ghost predicate Supported(row: Row, m: seq<Mark>) {
    && (row.valid <==> m != [] && !m[|m| - 1].Lost?)
    && (row.valid ==> row.lastSuccess == Some(m[|m| - 1].at))
    && (row.emptySince.Some? <==> m != [] && m[|m| - 1].Empty?)
    && (row.emptySince.Some? ==> exists k :: Longest(m, k) && row.emptySince == Some(m[k].at))
  }

  lemma EmptySuffix(m: seq<Mark>, j: int, k: int)
    requires EmptyFrom(m, j) && j <= k < |m|
    ensures EmptyFrom(m, k)
  {
    assert j < k ==> Follows(m, k);
  }

  /** The longest run holds every other one. */
  lemma LongestIsFirst(m: seq<Mark>, j: int, k: int)
    requires EmptyFrom(m, j) && Longest(m, k)
    ensures k <= j
  {
    if j < k {
      EmptySuffix(m, j, k - 1);
    }
  }

  lemma RunPrefix(m: seq<Mark>, x: Mark, j: int)
    requires EmptyFrom(m + [x], j) && j < |m|
    ensures EmptyFrom(m, j)
  {
    forall i | j < i < |m| ensures Follows(m, i) {
      assert Follows(m + [x], i);
    }
  }

  lemma ExtendRun(m: seq<Mark>, x: Mark, k: int)
    requires Longest(m, k) && Follows(m + [x], |m|)
    ensures Longest(m + [x], k)
  {
    var l := m + [x];
    forall i | k < i < |l| ensures Follows(l, i) {
      assert i < |m| ==> Follows(m, i);
    }
    if k > 0 && EmptyFrom(l, k - 1) {
      RunPrefix(m, x, k - 1);
    }
  }

  lemma StartRun(m: seq<Mark>, x: Mark)
    requires x.Empty? && (m != [] ==> !Follows(m + [x], |m|))
    ensures Longest(m + [x], |m|)
  {
  }

  lemma SupportedStep(row: Row, m: seq<Mark>, number: int, ok: bool, occupied: bool, at: int)
    requires Supported(row, m)
    ensures Supported(Observed(row, number, ok, occupied, at), m + [if !ok then Lost else if occupied then Occupied(at) else Empty(at)])
  {
    var x := if !ok then Lost else if occupied then Occupied(at) else Empty(at);
    var next := Observed(row, number, ok, occupied, at);
    if x.Empty? {
      if Recent(row, at) && row.emptySince.Some? {
        var k :| Longest(m, k) && row.emptySince == Some(m[k].at);
        ExtendRun(m, x, k);
        assert (m + [x])[k] == m[k];
      } else {
        StartRun(m, x);
        assert (m + [x])[|m|] == x;
      }
    }
  }

  /**
   `empty_since` is set exactly if the latest word was an empty list, and then it is the time at which
   the longest unbroken run of empty lists began: no failure, invalidation, occupied list, long gap or
   backward clock since.
   */
  lemma {:induction false} EmptyEvidence(events: seq<Event>)
    ensures Supported(After(events).row, Marks(Live(events)))
  {
    FenceRefines(events);
    LiveIsLive(events);
    Evidence(Live(events));
  }

  ghost predicate AllNewest(events: seq<Event>) {
    forall i | 0 <= i < |events| && events[i].Arrive? :: Newest(events, i)
  }

  lemma {:induction false} LiveIsLive(events: seq<Event>)
    ensures AllNewest(Live(events))
    ensures forall e | e in Live(events) :: e in events
  {
    if events != [] {
      var n := |events| - 1;
      LiveIsLive(events[..n]);
      var live, before := Live(events), Live(events[..n]);
      forall i | 0 <= i < |live| && live[i].Arrive? ensures Newest(live, i) {
        if i < |before| {
          assert Newest(before, i);
        } else {
          forall j | 0 <= j < i && live[j].Arrive? ensures live[j].number < live[i].number {
            assert live[j] == before[j] && before[j] in events[..n];
            var k :| 0 <= k < n && events[..n][k] == before[j];
            assert events[k] == before[j];
          }
        }
      }
    }
  }

  lemma {:induction false} Evidence(events: seq<Event>)
    requires AllNewest(events)
    ensures Supported(After(events).row, Marks(events))
  {
    hide SightAll, Listed, Supported, Observed, Newest;
    if events == [] {
      NothingSupported();
    } else {
      var n := |events| - 1;
      NewestPrefix(events, n);
      Evidence(events[..n]);
      var before, e := After(events[..n]), events[n];
      match e
      case Reserve => AllocationIsNoEvidence(before.row, Marks(events[..n]));
      case Invalidate => InvalidationIsLost(before.row, Marks(events[..n]));
      case Arrive(number, ok, players, at, _) =>
        AppliedIffNewest(events);
        SupportedStep(before.row, Marks(events[..n]), number, ok, players != [], at);
    }
  }

  lemma NewestPrefix(events: seq<Event>, n: nat)
    requires AllNewest(events) && n <= |events|
    ensures AllNewest(events[..n])
  {
    forall i | 0 <= i < n && events[i].Arrive? ensures Newest(events[..n], i) {
      assert Newest(events, i);
    }
  }

  lemma NothingSupported()
    ensures Supported(INITIAL.row, [])
  {
  }

  lemma AllocationIsNoEvidence(row: Row, m: seq<Mark>)
    requires Supported(row, m)
    ensures Supported(row.(issued := row.issued + 1), m + [])
  {
    assert m + [] == m;
  }

  lemma InvalidationIsLost(row: Row, m: seq<Mark>)
    requires Supported(row, m)
    ensures Supported(row.(valid := false, emptySince := None), m + [Lost])
  {
  }

  /** So k empty lists vouch for at most k - 1 gaps, whatever the clock did. */
  lemma {:induction false} EvidenceIsBounded(m: seq<Mark>, k: int)
    requires EmptyFrom(m, k)
    ensures m[|m| - 1].Empty? && 0 <= m[|m| - 1].at - m[k].at <= MAX_GAP_MS * (|m| - 1 - k)
    decreases |m| - k
  {
    if k < |m| - 1 {
      assert Follows(m, k + 1);
      EvidenceIsBounded(m, k + 1);
    }
  }

  /**
   In every state of every history in which the interval is set, k empty lists in a row vouch for it:
   it began with the first and reaches to the last success, and no gap between them exceeds a minute.
   */
  lemma EmptyIsVouchedFor(events: seq<Event>) returns (k: nat)
    requires After(events).row.emptySince.Some?
    ensures var m, row := Marks(Live(events)), After(events).row;
            && 0 < k <= |m| && Longest(m, |m| - k) && row.valid && row.lastSuccess.Some?
            && row.emptySince == Some(m[|m| - k].at)
            && 0 <= row.lastSuccess.value - row.emptySince.value <= MAX_GAP_MS * (k - 1)
  {
    hide After, Live, Marks;
    var m, row := Marks(Live(events)), After(events).row;
    EmptyEvidence(events);
    var first :| Longest(m, first) && row.emptySince == Some(m[first].at);
    LongestIsEmpty(m, first);
    EvidenceIsBounded(m, first);
    k := |m| - first;
  }

  lemma LongestIsEmpty(m: seq<Mark>, k: int)
    requires Longest(m, k)
    ensures EmptyFrom(m, k) && 0 <= k < |m|
  {
  }

  // ---------------------------------------------------------------------------------------------
  // Playtime
  // ---------------------------------------------------------------------------------------------

  /** All sightings in a history, in the order in which they were recorded. */
  function Sightings(events: seq<Event>): seq<Sighting> {
    if events == [] then []
    else Sightings(events[..|events| - 1]) + SightingsOf(events[|events| - 1])
  }

  function SightingsOf(e: Event): seq<Sighting> {
    if e.Arrive? && e.ok then Listed(e.players, e.at, e.grace) else []
  }

  lemma {:induction false} SightAllConcat(b: Book, x: seq<Sighting>, y: seq<Sighting>)
    ensures SightAll(b, x + y) == SightAll(SightAll(b, x), y)
  {
    hide Sight;
    if y == [] {
      assert x + y == x;
    } else {
      assert (x + y)[..|x + y| - 1] == x + y[..|y| - 1];
      SightAllConcat(b, x, y[..|y| - 1]);
    }
  }

  lemma {:induction false} BookOfHistory(events: seq<Event>)
    ensures After(events).book == SightAll(EMPTY_BOOK, Sightings(Live(events)))
  {
    FenceRefines(events);
    LiveIsLive(events);
    BookOfLive(Live(events));
  }

  lemma {:induction false} BookOfLive(events: seq<Event>)
    requires AllNewest(events)
    ensures After(events).book == SightAll(EMPTY_BOOK, Sightings(events))
  {
    hide Sight, Listed, Observed, Newest;
    if events != [] {
      var n := |events| - 1;
      NewestPrefix(events, n);
      BookOfLive(events[..n]);
      if events[n].Arrive? {
        AppliedIffNewest(events);
        assert Newest(events, n);
      }
      SightAllConcat(EMPTY_BOOK, Sightings(events[..n]), SightingsOf(events[n]));
    }
  }

  function Played(sessions: seq<Session>, uid: string): int {
    if sessions == [] then 0
    else
      var last := sessions[|sessions| - 1];
      Played(sessions[..|sessions| - 1], uid) + if last.uid == uid then last.lastSeen - last.started else 0
  }

  /** The times at which a player was seen. */
  function Times(all: seq<Sighting>, uid: string): seq<int> {
    if all == [] then []
    else
      var last := all[|all| - 1];
      Times(all[..|all| - 1], uid) + if Uid(last.player) == uid && !Placeholder(uid) then [last.at] else []
  }

  function Graces(all: seq<Sighting>, uid: string): seq<int> {
    if all == [] then []
    else
      var last := all[|all| - 1];
      Graces(all[..|all| - 1], uid) + if Uid(last.player) == uid && !Placeholder(uid) then [last.grace] else []
  }

  lemma {:induction false} SameLength(all: seq<Sighting>, uid: string)
    ensures |Times(all, uid)| == |Graces(all, uid)|
  {
    if all != [] {
      SameLength(all[..|all| - 1], uid);
    }
  }

  function Latest(times: seq<int>): int
    requires times != []
  {
    var n := |times| - 1;
    if n == 0 || times[n] >= Latest(times[..n]) then times[n] else Latest(times[..n])
  }

  /** What is credited: how far each sighting moves the latest time on, if that is within its grace. */
  function Credit(times: seq<int>, graces: seq<int>): int
    requires |times| == |graces|
  {
    var n := |times| - 1;
    if n < 1 then 0
    else
      var step := times[n] - Latest(times[..n]);
      Credit(times[..n], graces[..n]) + if 0 <= step <= graces[n] then step else 0
  }

  /** A session of positive length begins no earlier than every session of that player in an earlier row ended. */
  predicate InOrder(sessions: seq<Session>) {
    && (forall i | 0 <= i < |sessions| :: sessions[i].started <= sessions[i].lastSeen)
    && forall i, j | 0 <= i < j < |sessions| && sessions[i].uid == sessions[j].uid ::
         sessions[j].started < sessions[j].lastSeen ==> sessions[i].lastSeen <= sessions[j].started
  }

  /** The session that may still grow begins no earlier than all before it ended. */
  ghost predicate TopsInOrder(sessions: seq<Session>) {
    forall p, uid :: IsTop(sessions, uid, p) ==>
      forall i | 0 <= i < p && sessions[i].uid == uid :: sessions[i].lastSeen <= sessions[p].started
  }

  lemma TopIsOne(sessions: seq<Session>, uid: string, p: int, q: int)
    requires IsTop(sessions, uid, p) && IsTop(sessions, uid, q)
    ensures p == q
  {
  }

  lemma OpenedInOrder(sessions: seq<Session>, uid: string, at: int)
    requires InOrder(sessions) && TopsInOrder(sessions)
    ensures InOrder(sessions + [Session(uid, at, at, 1)]) && TopsInOrder(sessions + [Session(uid, at, at, 1)])
  {
    var next := sessions + [Session(uid, at, at, 1)];
    forall p, u | IsTop(next, u, p)
      ensures forall i | 0 <= i < p && next[i].uid == u :: next[i].lastSeen <= next[p].started
    {
      if p < |sessions| {
        assert IsTop(sessions, u, p) by {
          assert forall i | 0 <= i < |sessions| :: next[i] == sessions[i];
        }
      }
    }
  }

  lemma GrownInOrder(sessions: seq<Session>, uid: string, p: nat, at: int)
    requires InOrder(sessions) && TopsInOrder(sessions) && IsTop(sessions, uid, p) && sessions[p].lastSeen <= at
    ensures var next := sessions[p := sessions[p].(lastSeen := at, samples := sessions[p].samples + 1)];
            InOrder(next) && TopsInOrder(next)
  {
    var next := sessions[p := sessions[p].(lastSeen := at, samples := sessions[p].samples + 1)];
    assert forall i | 0 <= i < |sessions| :: next[i].uid == sessions[i].uid && (i != p ==> next[i] == sessions[i]);
    assert IsTop(next, uid, p);
    forall i, j | 0 <= i < j < |next| && next[i].uid == next[j].uid && next[j].started < next[j].lastSeen
      ensures next[i].lastSeen <= next[j].started
    {
    }
    forall q, u | IsTop(next, u, q)
      ensures forall i | 0 <= i < q && next[i].uid == u :: next[i].lastSeen <= next[q].started
    {
      if u == uid {
        TopIsOne(next, uid, p, q);
      } else {
        assert forall i | 0 <= i < |sessions| && sessions[i].uid == u :: next[i] == sessions[i];
        assert IsTop(sessions, u, q);
      }
    }
  }

  lemma {:induction false} PlayedOpened(sessions: seq<Session>, uid: string, s: Session)
    ensures Played(sessions + [s], uid) == Played(sessions, uid) + if s.uid == uid then s.lastSeen - s.started else 0
  {
    assert (sessions + [s])[..|sessions|] == sessions;
  }

  lemma {:induction false} PlayedGrown(sessions: seq<Session>, uid: string, p: nat, s: Session)
    requires p < |sessions| && s.uid == sessions[p].uid && s.started == sessions[p].started
    ensures Played(sessions[p := s], uid) == Played(sessions, uid) + if s.uid == uid then s.lastSeen - sessions[p].lastSeen else 0
  {
    var n := |sessions| - 1;
    if p == n {
      assert sessions[p := s][..n] == sessions[..n];
    } else {
      assert sessions[p := s][..n] == sessions[..n][p := s];
      PlayedGrown(sessions[..n], uid, p, s);
    }
  }

  /** What the book holds about a player, against the times at which the player was seen. */
  ghost predicate Accounts(b: Book, uid: string, times: seq<int>, graces: seq<int>)
    requires |times| == |graces|
  {
    && (uid in b.identities <==> times != [])
    && (Top(b.sessions, uid).Some? <==> times != [])
    && (times != [] ==>
          && b.identities[uid].totalPlay == Played(b.sessions, uid) == Credit(times, graces)
          && b.sessions[Top(b.sessions, uid).value].lastSeen == Latest(times)
          && b.identities[uid].firstSeen == times[0] && b.identities[uid].lastSeen == times[|times| - 1])
    && (times == [] ==> Played(b.sessions, uid) == 0)
  }

  lemma SightOther(b: Book, s: Sighting, uid: string, times: seq<int>, graces: seq<int>)
    requires |times| == |graces| && Accounts(b, uid, times, graces) && (Uid(s.player) != uid || Placeholder(uid))
    ensures Accounts(Sight(b, s), uid, times, graces)
  {
    hide Uid, Placeholder, Credit, Latest, Played, Top;
    var who := Uid(s.player);
    if !Placeholder(who) {
      if Continues(b, s) {
        var p := Top(b.sessions, who).value;
        var was := b.sessions[p];
        var session := was.(lastSeen := s.at, samples := was.samples + 1);
        PlayedGrown(b.sessions, uid, p, session);
        TopElsewhere(b.sessions, b.sessions[p := session], uid);
      } else {
        var session := Session(who, s.at, s.at, 1);
        PlayedOpened(b.sessions, uid, session);
        TopElsewhere(b.sessions, b.sessions + [session], uid);
      }
    }
  }

  lemma TopElsewhere(sessions: seq<Session>, next: seq<Session>, uid: string)
    requires |sessions| <= |next|
    requires forall i | 0 <= i < |sessions| :: sessions[i] == next[i] || (sessions[i].uid != uid && next[i].uid != uid)
    requires forall i | |sessions| <= i < |next| :: next[i].uid != uid
    ensures Top(next, uid) == Top(sessions, uid)
    ensures Top(next, uid).Some? ==> next[Top(next, uid).value] == sessions[Top(next, uid).value]
  {
    hide Top;
    var p, q := Top(sessions, uid), Top(next, uid);
    if p.Some? {
      assert next[p.value].uid == uid;
      assert q.Some?;
      assert IsTop(next, uid, p.value) by {
        assert IsTop(sessions, uid, p.value);
      }
      TopIsOne(next, uid, p.value, q.value);
    }
  }

  lemma CreditLast(times: seq<int>, graces: seq<int>, at: int, grace: int)
    requires |times| == |graces|
    ensures times == [] ==> Credit(times + [at], graces + [grace]) == 0 && Latest(times + [at]) == at
    ensures times != [] ==>
              var step := at - Latest(times);
              && Credit(times + [at], graces + [grace]) == Credit(times, graces) + (if 0 <= step <= grace then step else 0)
              && Latest(times + [at]) == if step >= 0 then at else Latest(times)
  {
    assert (times + [at])[..|times|] == times && (graces + [grace])[..|graces|] == graces;
  }

  lemma SightSame(b: Book, s: Sighting, times: seq<int>, graces: seq<int>)
    requires !Placeholder(Uid(s.player)) && |times| == |graces| && Accounts(b, Uid(s.player), times, graces)
    ensures Accounts(Sight(b, s), Uid(s.player), times + [s.at], graces + [s.grace])
  {
    hide Uid, Placeholder, Credit, Latest, Played, Top;
    var uid := Uid(s.player);
    CreditLast(times, graces, s.at, s.grace);
    if Continues(b, s) {
      var p := Top(b.sessions, uid).value;
      var was := b.sessions[p];
      var session := was.(lastSeen := s.at, samples := was.samples + 1);
      PlayedGrown(b.sessions, uid, p, session);
      TopGrown(b.sessions, uid, p, session);
    } else {
      PlayedOpened(b.sessions, uid, Session(uid, s.at, s.at, 1));
      TopOpened(b.sessions, uid, Session(uid, s.at, s.at, 1));
    }
  }

  lemma TopGrown(sessions: seq<Session>, uid: string, p: nat, s: Session)
    requires IsTop(sessions, uid, p) && s.uid == uid && s.lastSeen >= sessions[p].lastSeen
    ensures Top(sessions[p := s], uid) == Some(p)
  {
    hide Top;
    var next := sessions[p := s];
    assert next[p].uid == uid;
    assert IsTop(next, uid, p);
    assert Top(next, uid).Some?;
    TopIsOne(next, uid, p, Top(next, uid).value);
  }

  lemma TopOpened(sessions: seq<Session>, uid: string, s: Session)
    requires s.uid == uid
    ensures var top := Top(sessions, uid);
            Top(sessions + [s], uid) == if top.Some? && s.lastSeen < sessions[top.value].lastSeen then top else Some(|sessions|)
  {
    var next := sessions + [s];
    assert next[..|sessions|] == sessions;
  }

  lemma {:induction false} AllAccounts(all: seq<Sighting>, uid: string)
    ensures |Times(all, uid)| == |Graces(all, uid)|
    ensures Accounts(SightAll(EMPTY_BOOK, all), uid, Times(all, uid), Graces(all, uid))
  {
    hide Sight, Accounts;
    SameLength(all, uid);
    if all == [] {
      NothingAccounts(uid);
    } else {
      var n := |all| - 1;
      var b, s := SightAll(EMPTY_BOOK, all[..n]), all[n];
      AllAccounts(all[..n], uid);
      if Uid(s.player) == uid && !Placeholder(uid) {
        SightSame(b, s, Times(all[..n], uid), Graces(all[..n], uid));
      } else {
        SightOther(b, s, uid, Times(all[..n], uid), Graces(all[..n], uid));
        assert Times(all[..n], uid) + [] == Times(all[..n], uid) && Graces(all[..n], uid) + [] == Graces(all[..n], uid);
      }
    }
  }

  lemma NothingAccounts(uid: string)
    ensures Accounts(EMPTY_BOOK, uid, [], [])
  {
  }

  lemma {:induction false} AllInOrder(all: seq<Sighting>)
    ensures InOrder(SightAll(EMPTY_BOOK, all).sessions) && TopsInOrder(SightAll(EMPTY_BOOK, all).sessions)
  {
    hide InOrder, TopsInOrder, Top, Uid;
    if all == [] {
      EmptyInOrder();
    } else {
      var n := |all| - 1;
      var b, s := SightAll(EMPTY_BOOK, all[..n]), all[n];
      AllInOrder(all[..n]);
      if Continues(b, s) {
        GrownInOrder(b.sessions, Uid(s.player), Top(b.sessions, Uid(s.player)).value, s.at);
      } else {
        OpenedInOrder(b.sessions, Uid(s.player), s.at);
      }
    }
  }

  lemma EmptyInOrder()
    ensures InOrder([]) && TopsInOrder([])
  {
  }

  predicate Within(sessions: seq<Session>, uid: string, lo: int, hi: int) {
    forall i | 0 <= i < |sessions| && sessions[i].uid == uid :: lo <= sessions[i].started && sessions[i].lastSeen <= hi
  }

  /** Sessions in order add up to no more than the time they span. */
  lemma {:induction false} SpanBounds(sessions: seq<Session>, uid: string, lo: int, hi: int)
    requires InOrder(sessions) && Within(sessions, uid, lo, hi) && lo <= hi
    ensures 0 <= Played(sessions, uid) <= hi - lo
  {
    if sessions != [] {
      var n := |sessions| - 1;
      var before, last := sessions[..n], sessions[n];
      if last.uid == uid && last.started < last.lastSeen {
        assert Within(before, uid, lo, last.started) by {
          assert forall i | 0 <= i < n :: before[i] == sessions[i];
        }
        SpanBounds(before, uid, lo, last.started);
      } else {
        SpanBounds(before, uid, lo, hi);
      }
    }
  }

  /**
   Playtime is conserved over every history, for any clock and any grace: a player's total is the sum
   of the player's sessions, it is what the sightings earn against the latest time so far, and it fits
   into any span that holds the sessions.
   */
  lemma PlaytimeConserved(events: seq<Event>, uid: string, lo: int, hi: int)
    requires uid in After(events).book.identities
    requires Within(After(events).book.sessions, uid, lo, hi) && lo <= hi
    ensures var b, all := After(events).book, Sightings(Live(events));
            && InOrder(b.sessions)
            && |Times(all, uid)| == |Graces(all, uid)|
            && b.identities[uid].totalPlay == Played(b.sessions, uid) == Credit(Times(all, uid), Graces(all, uid))
            && 0 <= b.identities[uid].totalPlay <= hi - lo
  {
    hide After, Live, Sightings, Sight, Played, InOrder, TopsInOrder, Within, Credit, Top;
    BookOfHistory(events);
    var all := Sightings(Live(events));
    AllAccounts(all, uid);
    AllInOrder(all);
    SpanBounds(After(events).book.sessions, uid, lo, hi);
  }

  /** With a clock that never goes back and one grace, the credit is the sum of the short gaps. */
  function ShortGaps(times: seq<int>, grace: int): int {
    var n := |times| - 1;
    if n < 1 then 0
    else ShortGaps(times[..n], grace) + if times[n] - times[n - 1] <= grace then times[n] - times[n - 1] else 0
  }

  lemma {:induction false} CreditIsShortGaps(times: seq<int>, graces: seq<int>, grace: int)
    requires |times| == |graces| && forall i | 0 <= i < |graces| :: graces[i] == grace
    requires forall i | 0 < i < |times| :: times[i - 1] <= times[i]
    ensures Credit(times, graces) == ShortGaps(times, grace)
    ensures times != [] ==> Latest(times) == times[|times| - 1]
  {
    var n := |times| - 1;
    if n >= 1 {
      CreditIsShortGaps(times[..n], graces[..n], grace);
    }
  }
}
