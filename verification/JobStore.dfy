/** The job files and what the worker writes to them: lib/palwarden_jobs.py and the file side of sbin/palwarden-jobd. */
module JobStore {
  import opened Wrappers
  import opened Bytes
  import opened Utf8

  const OUTPUT_LIMIT := 262144
  const TRUNCATION_MARKER := "\n[output truncated at 256 KiB]\n"
  const REDACTED := "<redacted>"
  const ORPHANED := "worker restarted; this job did not finish\n"
  const LIST_LIMIT := 1000

  type Id = string

  datatype State = Queued | Running | Succeeded | Failed

  predicate Terminal(s: State) { s.Succeeded? || s.Failed? }

  /** The two places in which a writer of any privilege could put the token. */
  datatype Params = Params(settings: Option<map<string, string>>, others: map<string, string>)

  /** `number` is the submission number (`seq`). */
  datatype Job = Job(action: string, params: Params, state: State, number: nat, exitCode: Option<int>, output: string)

  // ---------------------------------------------------------------------------------------------
  // Output
  // ---------------------------------------------------------------------------------------------

  function Capped(text: string): string {
    if |text| > OUTPUT_LIMIT then text[..OUTPUT_LIMIT] + TRUNCATION_MARKER else text
  }

  /** One append: the limit is put to what is stored and what is new together. */
  function Appended(job: Job, text: string): Job {
    job.(output := Capped(job.output + text))
  }

  /** Appending to capped text is capping the whole text, however often the marker has been written. */
  lemma CappedAgain(before: string, text: string)
    ensures Capped(Capped(before) + text) == Capped(before + text)
  {
    if |before| > OUTPUT_LIMIT {
      assert (Capped(before) + text)[..OUTPUT_LIMIT] == before[..OUTPUT_LIMIT] == (before + text)[..OUTPUT_LIMIT];
    }
  }

  /** Any number of appends. */
  function AppendedAll(job: Job, texts: seq<string>): Job {
    if texts == [] then job else Appended(AppendedAll(job, texts[..|texts| - 1]), texts[|texts| - 1])
  }

  function Concat(texts: seq<string>): string {
    if texts == [] then "" else Concat(texts[..|texts| - 1]) + texts[|texts| - 1]
  }

  /** After any number of appends the job holds the whole text under one cap, and is otherwise the same. */
  lemma {:induction false} AppendsAreCapped(job: Job, texts: seq<string>)
    requires job.output == ""
    ensures AppendedAll(job, texts) == job.(output := Capped(Concat(texts)))
  {
    hide Capped;
    if texts == [] {
      NothingCapped();
    } else {
      var n := |texts| - 1;
      AppendsAreCapped(job, texts[..n]);
      CappedAgain(Concat(texts[..n]), texts[n]);
    }
  }

  lemma NothingCapped()
    ensures Capped("") == ""
  {
  }

  function Flat(chunks: seq<seq<Byte>>): seq<Byte> {
    if chunks == [] then [] else Flat(chunks[..|chunks| - 1]) + chunks[|chunks| - 1]
  }

  /** The length of the part that ends with the last newline. */
  function LinesIn(b: seq<Byte>): (n: nat)
    ensures n <= |b| && WholeLines(b[..n])
    ensures forall i | n <= i < |b| :: b[i] != 10
  {
    if b == [] then 0
    else if b[|b| - 1] == 10 then |b|
    else
      var n := LinesIn(b[..|b| - 1]);
      assert b[..|b| - 1][..n] == b[..n];
      n
  }

  // ---------------------------------------------------------------------------------------------
  // The token
  // ---------------------------------------------------------------------------------------------

  predicate Holds(m: map<string, string>) {
    "KNOCK_TOKEN" in m && m["KNOCK_TOKEN"] != REDACTED
  }

  predicate HoldsToken(job: Job) {
    job.action == "palwarden_config_save"
    && ((job.params.settings.Some? && Holds(job.params.settings.value)) || Holds(job.params.others))
  }

  function Redact(m: map<string, string>): map<string, string> {
    if "KNOCK_TOKEN" in m then m["KNOCK_TOKEN" := REDACTED] else m
  }

  function Scrubbed(job: Job): (r: Job)
    ensures !HoldsToken(r)
    ensures r == job.(params := r.params)
  {
    if job.action != "palwarden_config_save" then job
    else
      job.(params := Params(if job.params.settings.Some? then Some(Redact(job.params.settings.value)) else None,
                            Redact(job.params.others)))
  }

  // ---------------------------------------------------------------------------------------------
  // Listing
  // ---------------------------------------------------------------------------------------------

  /** What `list_jobs(limit=1000)` may return: the newest jobs, newest first, in some order where numbers tie. */
  predicate Listing(files: map<Id, Job>, l: seq<Id>) {
    && (forall i | 0 <= i < |l| :: l[i] in files)
    && (forall i, j | 0 <= i < j < |l| :: l[i] != l[j] && files[l[i]].number >= files[l[j]].number)
    && |l| == (if |files| < LIST_LIMIT then |files| else LIST_LIMIT)
    && forall id, i | id in files && id !in l && 0 <= i < |l| :: files[id].number <= files[l[i]].number
  }

  /** Up to the limit nothing is left out. */
  lemma {:induction false} ListingIsComplete(files: map<Id, Job>, l: seq<Id>)
    requires Listing(files, l) && |files| <= LIST_LIMIT
    ensures forall id :: id in files <==> id in l
  {
    var listed := set i | 0 <= i < |l| :: l[i];
    DistinctCount(l);
    assert listed <= files.Keys;
    assert |files.Keys| == |files|;
    if listed < files.Keys {
      SmallerSet(listed, files.Keys);
    }
    forall id | id in files ensures id in l {
      assert id in listed;
    }
  }

  lemma SmallerSet(a: set<Id>, b: set<Id>)
    requires a < b
    ensures |a| < |b|
  {
    assert b == a + (b - a) && a !! (b - a);
    assert b - a != {};
  }

  lemma {:induction false} DistinctCount(l: seq<Id>)
    requires forall i, j | 0 <= i < j < |l| :: l[i] != l[j]
    ensures |set i | 0 <= i < |l| :: l[i]| == |l|
  {
    if l != [] {
      var n := |l| - 1;
      DistinctCount(l[..n]);
      var before := set i | 0 <= i < n :: l[..n][i];
      assert (set i | 0 <= i < |l| :: l[i]) == before + {l[n]};
    }
  }

  /** The oldest queued job of the listing. */
  predicate OldestQueued(files: map<Id, Job>, l: seq<Id>, id: Id) {
    && id in files && id in l && files[id].state.Queued?
    && forall other | other in l && other in files && files[other].state.Queued? :: files[id].number <= files[other].number
  }

  // ---------------------------------------------------------------------------------------------
  // The store
  // ---------------------------------------------------------------------------------------------

  /** A job as it is queued. */
  function Submitted(action: string, params: Params, number: nat): Job {
    Job(action, params, Queued, number, None, "")
  }

  function Reaped(job: Job): Job {
    Scrubbed(Appended(job, ORPHANED)).(state := Failed, exitCode := Some(1))
  }

  class Store {
    var files: map<Id, Job>

    /** Fails with KeyError if the job is not there. */
    method AppendOutput(id: Id, text: string) returns (found: bool)
      modifies this
      ensures found == (id in old(files))
      ensures files == if found then old(files)[id := Appended(old(files)[id], text)] else old(files)
    {
      if id !in files {
        return false;
      }
      var job := files[id];
      var combined := job.output + text;
      if |combined| > OUTPUT_LIMIT {
        combined := combined[..OUTPUT_LIMIT] + TRUNCATION_MARKER;
      }
      files := files[id := job.(output := combined)];
      return true;
    }

    method Finish(id: Id, success: bool, exitCode: int) returns (found: bool)
      modifies this
      ensures found == (id in old(files))
      ensures files == if found then old(files)[id := old(files)[id].(state := if success then Succeeded else Failed, exitCode := Some(exitCode))]
                       else old(files)
    {
      if id !in files {
        return false;
      }
      files := files[id := files[id].(state := if success then Succeeded else Failed, exitCode := Some(exitCode))];
      return true;
    }

    /** Best effort: a job that is not there has nothing to hide. */
    method ScrubConfigToken(id: Id)
      modifies this
      ensures files == if id in old(files) then old(files)[id := Scrubbed(old(files)[id])] else old(files)
    {
      if id !in files || files[id].action != "palwarden_config_save" {
        return;
      }
      var job := files[id];
      var params, changed := job.params, false;
      if params.settings.Some? && "KNOCK_TOKEN" in params.settings.value {
        params, changed := params.(settings := Some(params.settings.value["KNOCK_TOKEN" := REDACTED])), true;
      }
      if "KNOCK_TOKEN" in params.others {
        params, changed := params.(others := params.others["KNOCK_TOKEN" := REDACTED]), true;
      }
      if changed {
        files := files[id := job.(params := params)];
      }
    }

    method ClaimNext(listed: seq<Id>) returns (claimed: Option<Id>)
      requires Listing(files, listed)
      modifies this
      ensures claimed.None? ==> files == old(files) && forall id | id in listed :: !files[id].state.Queued?
      ensures claimed.Some? ==> OldestQueued(old(files), listed, claimed.value)
                                && files == old(files)[claimed.value := old(files)[claimed.value].(state := Running)]
    {
      claimed := None;
      for i := 0 to |listed|
        invariant claimed.None? ==> forall k | 0 <= k < i :: !files[listed[k]].state.Queued?
        invariant claimed.Some? ==> claimed.value in listed && claimed.value in files && files[claimed.value].state.Queued?
                                    && forall k | 0 <= k < i && files[listed[k]].state.Queued? ::
                                         files[claimed.value].number <= files[listed[k]].number
      {
        var id := listed[i];
        if files[id].state.Queued? && (claimed.None? || files[id].number < files[claimed.value].number) {
          claimed := Some(id);
        }
      }
      if claimed.Some? {
        files := files[claimed.value := files[claimed.value].(state := Running)];
      }
    }

    method Reap(id: Id)
      requires id in files
      modifies this
      ensures files == old(files)[id := Reaped(old(files)[id])]
    {
      hide Capped, Redact, HoldsToken, Scrubbed;
      var _ := AppendOutput(id, ORPHANED);
      ScrubConfigToken(id);
      var _ := Finish(id, false, 1);
    }

    /** Jobs that a former worker left behind: noted, scrubbed, and only then failed. */
    method ReapOrphans(listed: seq<Id>) returns (reaped: nat)
      requires Listing(files, listed)
      modifies this
      ensures files.Keys == old(files).Keys
      ensures forall id | id in old(files) ::
                files[id] == if id in listed && old(files)[id].state.Running? then Reaped(old(files)[id]) else old(files)[id]
    {
      hide Reaped;
      reaped := 0;
      for i := 0 to |listed|
        invariant files.Keys == old(files).Keys
        invariant forall id | id in old(files) ::
                    files[id] == if id in listed[..i] && old(files)[id].state.Running? then Reaped(old(files)[id]) else old(files)[id]
      {
        var id := listed[i];
        assert id !in listed[..i];
        if files[id].state.Running? {
          Reap(id);
          reaped := reaped + 1;
        }
      }
    }

    /**
     One step of a job: `chunks` are the pieces in which its output arrives until it ends or time runs
     out, in which case it is killed and a last remark is made.
     */
    method RunStep(id: Id, chunks: seq<seq<Byte>>, timedOut: bool, remark: string) returns (ghost flushes: seq<seq<Byte>>)
      requires id in files
      modifies this
      ensures Flat(flushes) == Flat(chunks) && forall i | 0 <= i < |flushes| - 1 :: WholeLines(flushes[i])
      ensures files.Keys == old(files).Keys && forall other | other in files && other != id :: files[other] == old(files)[other]
      ensures files[id] == old(files)[id].(output := files[id].output)
      ensures forall before :: old(files)[id].output == Capped(before) ==>
                files[id].output == Capped(before + Decode(Flat(chunks)) + if timedOut then remark else "")
    {
      hide Decode, Capped, LinesIn, Flat, WholeLines;
      ghost var start := files;
      var pending: seq<Byte> := [];
      flushes := [];
      NothingYet(files[id].output);
      for i := 0 to |chunks|
        invariant id in files && files.Keys == start.Keys && forall other | other in files && other != id :: files[other] == start[other]
        invariant files[id] == start[id].(output := files[id].output)
        invariant Flat(flushes) + pending == Flat(chunks[..i]) && forall k | 0 <= k < |flushes| :: WholeLines(flushes[k])
        invariant forall before :: start[id].output == Capped(before) ==> files[id].output == Capped(before + Decode(Flat(flushes)))
      {
        FlatPrefix(chunks, i);
        pending := pending + chunks[i];
        var n := LinesIn(pending);
        LinesAreWhole(pending);
        if n > 0 {
          var piece := pending[..n];
          var _ := AppendOutput(id, Decode(piece));
          FlushedMore(start[id].output, flushes, piece);
          flushes := flushes + [piece];
          pending := pending[n..];
        }
      }
      assert chunks[..|chunks|] == chunks;
      if pending != [] {
        var _ := AppendOutput(id, Decode(pending));
        FlushedMore(start[id].output, flushes, pending);
        flushes := flushes + [pending];
      }
      ghost var text := Decode(Flat(chunks));
      assert Flat(flushes) == Flat(chunks);
      Remarked(start[id].output, files[id].output, text, remark);
      if timedOut {
        var _ := AppendOutput(id, remark);
      }
    }
  }

  lemma LinesAreWhole(b: seq<Byte>)
    ensures LinesIn(b) <= |b| && WholeLines(b[..LinesIn(b)])
  {
  }

  lemma Remarked(output: string, now: string, text: string, remark: string)
    requires forall before :: output == Capped(before) ==> now == Capped(before + text)
    ensures forall before :: output == Capped(before) ==> now == Capped(before + text + "")
    ensures forall before :: output == Capped(before) ==> Capped(now + remark) == Capped(before + text + remark)
  {
    hide Capped;
    forall before | output == Capped(before)
      ensures now == Capped(before + text + "") && Capped(now + remark) == Capped(before + text + remark)
    {
      assert before + text + "" == before + text;
      CappedAgain(before + text, remark);
    }
  }

  lemma FlatPrefix(chunks: seq<seq<Byte>>, i: nat)
    requires i < |chunks|
    ensures Flat(chunks[..i + 1]) == Flat(chunks[..i]) + chunks[i]
  {
    assert chunks[..i + 1][..i] == chunks[..i];
  }

  lemma NothingYet(output: string)
    ensures Flat([]) == []
    ensures forall before :: output == Capped(before) ==> output == Capped(before + Decode(Flat([])))
  {
    forall before | output == Capped(before) ensures output == Capped(before + Decode(Flat([]))) {
      assert before + Decode(Flat([])) == before;
    }
  }

  lemma {:induction false} FlatIsWhole(flushes: seq<seq<Byte>>)
    requires forall k | 0 <= k < |flushes| :: WholeLines(flushes[k])
    ensures WholeLines(Flat(flushes))
  {
    if flushes != [] {
      FlatIsWhole(flushes[..|flushes| - 1]);
    }
  }

  lemma FlatLast(flushes: seq<seq<Byte>>, piece: seq<Byte>)
    ensures Flat(flushes + [piece]) == Flat(flushes) + piece
  {
    assert (flushes + [piece])[..|flushes|] == flushes;
  }

  lemma FlushedOne(before: string, lines: seq<Byte>, piece: seq<Byte>)
    requires WholeLines(lines)
    ensures Capped(Capped(before + Decode(lines)) + Decode(piece)) == Capped(before + Decode(lines + piece))
  {
    hide Decode, Capped;
    DecodeConcat(lines, piece);
    CappedAgain(before + Decode(lines), Decode(piece));
    assert before + Decode(lines) + Decode(piece) == before + (Decode(lines) + Decode(piece));
  }

  /** One more flush behind whole lines appends exactly the text of its bytes. */
  lemma FlushedMore(output: string, flushes: seq<seq<Byte>>, piece: seq<Byte>)
    requires forall k | 0 <= k < |flushes| :: WholeLines(flushes[k])
    ensures Flat(flushes + [piece]) == Flat(flushes) + piece
    ensures forall before :: output == Capped(before) ==>
              Capped(Capped(before + Decode(Flat(flushes))) + Decode(piece)) == Capped(before + Decode(Flat(flushes + [piece])))
  {
    hide Decode, Capped, Flat;
    FlatLast(flushes, piece);
    FlatIsWhole(flushes);
    forall before | output == Capped(before)
      ensures Capped(Capped(before + Decode(Flat(flushes))) + Decode(piece)) == Capped(before + Decode(Flat(flushes + [piece])))
    {
      FlushedOne(before, Flat(flushes), piece);
    }
  }
}
