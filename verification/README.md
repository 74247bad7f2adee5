# Palwarden: a verified model

Palwarden is the operations tooling around a Palworld game server: it starts, stops, updates and wakes the
server, reads its save files, watches who is playing, edits its configuration, runs queued jobs and rotates
backups. This project models the parts of it whose correctness spans more than one function, and proves
what they promise.

| component | modules |
|---|---|
| lifecycle lock, maintenance marker, wake fence | `LifecycleMarker`, `LifecycleProtocol`, `LifecycleSafety`, `WakeRate` |
| GVAS save reader and the fixture encoder | `Bytes`, `GvasFormat`, `GvasReader`, `GvasLocality`, `GvasEncoding`, `GvasRoundTrip` |
| presence evidence and playtime | `Presence`, `PresenceEvidence` |
| INI settings, the env file behind them, the settings form | `IniConfig`, `IniLaws`, `IniFile`, `EnvFile`, `GameSettings` |
| job queue and worker | `Utf8`, `JobStore`, `JobRuns` |
| backup retention | `Retention`, `RetentionLaws` |
| operations settings file | `JsonString`, `OpsConfig`, `OpsRoundTrip` |

`Wrappers` (Option, Result) and `Text` (strip, find, ASCII case) are shared. `dafny verify dfyconfig.toml`
checks everything.

Code that changes things in place is modelled by classes and methods with loops, each proved equal to a
specification function; the laws are then proved about those functions. Protocols between processes are step
relations, and the laws about them hold of every run.

## What is promised, and where the code keeps less than it says

- Inhibition. The marker is never idle while a controller of an open transaction is left exactly in the runs
  in which no success is recorded over a surviving controller (`InhibitedIffCompletedAlone`), given that the
  state file exists. A nested controller that dies and leaves a child behind does produce such a success
  (`OrphanedBorrower`). Without a state file a delayed creation by runtime initialisation can overwrite an
  active or an unsafe marker (`CreationRace`, `DelayedCreation`), so both inhibition and fail-closed recovery
  hold for all runs if and only if the file is there at the start.
- Wake rate. `k` starts stamped within `W` ms satisfy `(k - 1) * cooldown <= W`. Measured between the starts
  themselves, with each start at most `d` after its stamp, it is `(k - 1) * cooldown <= W + d`, and that is met
  exactly for every `d` up to the cooldown (`RateBoundIsTight`); so the bound without `d` holds in all series
  of wakes if and only if no start is later than its stamp (`StartsFarApartIffPrompt`).
- GVAS. After a failure at the root the reader returns an empty tree, although a comment in
  lib/palwarden_gvas.py speaks of keeping the partial one. The code is followed.
- INI apply. "Every other byte is preserved" fails for a body that ends in a top-level comma: rewriting drops
  it (`JoinOfSplit`). If the body ends in an empty part and one setting overrides another of the same key, a
  second run shortens the line once more (`ApplyIsIdempotent`, `NotAlwaysIdempotent`). A value with a line
  break that settles in a quoted part splits the settings line in two: the next run finds its own work exactly
  if there is none (`FindsItsOwnWork`), and may find no settings at all (`LineBreakLosesTheSettings`). A file
  that is written is written with newlines as the only line ends, whatever it had before.
- Settings form. A setting that the form accepts is applied to the same key exactly under the condition of
  `AppliedToTheSameKey`; two keys that fold alike can break it (`ShadowedKey`), although the form's
  documentation rules this out.
- Jobs. The worker goes on after a failed scrub, and so does the reaping of orphans when it cannot read the
  job; then an ended configuration job can hold its token (`FailedScrubStrandsTheToken`). It happens exactly
  when a job whose scrub failed while it held the token is ended right after, with no crash or failed last
  write in between (`CleanIffNothingStranded`).
- Retention. The directory is never emptied as long as nobody else removes archives during the prune. If
  somebody does, the guard for the last archive, which counts from the listing, does not help
  (`VanishedCanEmpty`); `SomethingIsLeft` says exactly when something is left.
- JSON strings. What is loaded back from a dump is the text with adjacent surrogates paired, so the round trip
  is exact for just the texts without such a pair (`LoadsOfDumps`). Valid tokens have no surrogates at all.

## Model

| member | source | states |
|---|---|---|
| LifecycleMarker.StateStore.Publish | lib/palwarden_lifecycle.py:564-613 | an unsafe marker is left only by force; a generation is kept unless rotated or absent; a refused write changes nothing |
| LifecycleMarker.StateStore.EnsureState | lib/palwarden_lifecycle.py:450-472 | seeds an absent state file as idle and never touches an existing one |
| LifecycleMarker.StateStore.EscalateAbandoned | lib/palwarden_lifecycle.py:519-539 | an active marker found under the lock becomes unsafe with its generation kept; anything else stays |
| LifecycleMarker.StateStore.BeginTransaction | lib/palwarden_lifecycle.py:542-561 | whoever is let in leaves a marker that inhibits wakes: active with a never-drawn generation, or unsafe with the old one |
| LifecycleMarker.StateStore.Complete | lib/palwarden_lifecycle.py:1139-1162 | completion makes the marker idle only on success and never out of unsafe; the generation stays |
| LifecycleMarker.StateStore.InitRuntime | lib/palwarden_lifecycle.py:475-516 | runtime start-up rotates an idle marker, escalates an active one and leaves an unsafe one |
| LifecycleMarker.StateStore.AcknowledgeMaintenance | lib/palwarden_lifecycle.py:1086-1136 | clears the marker exactly when the service is confirmed stopped and the file is readable, under a fresh generation |
| LifecycleProtocol.InvHolds | lib/palwarden_lifecycle.py:234-373 | every reachable state: all descriptors share the locked description, chains have one root, a poised publisher meets no active marker, and a held lock has a living sharer |
| LifecycleProtocol.Exclusion | lib/palwarden_lifecycle.py:234-270 | at most one descriptor chain holds the lock, at any depth of borrowing and after any crashes |
| LifecycleProtocol.HeldUntilLastSharer | lib/palwarden_lifecycle.py:285-321 | the lock is freed by the step that removes its last sharer and by no other |
| LifecycleProtocol.OnlyOutermostRecords | lib/palwarden-lifecycle-bash:58-105 | only the process that took the lock ever records completion, and there is at most one such process |
| LifecycleProtocol.SoleRoot | lib/palwarden_lifecycle.py:959-1026 | in every run, of the processes that hold a descriptor only one is not a borrower |
| LifecycleSafety.InhibitedIffCompletedAlone | lib/palwarden_lifecycle.py:542-613 | once the state file exists, the marker is never idle under a live controller of an open transaction exactly in the runs where no success is recorded over a surviving one |
| LifecycleSafety.InhibitionNeedsTheMarker | lib/palwarden_lifecycle.py:450-516 | inhibition holds in all runs from a state exactly if the state file exists there |
| LifecycleSafety.CreationRace | lib/palwarden_lifecycle.py:450-516 | without a state file, runtime initialisation can create an idle marker over a controller's active one |
| LifecycleSafety.OrphanedBorrower | lib/palwarden-lifecycle-bash:48-105 | a dead borrower can leave a controller behind over which its owner records success |
| LifecycleSafety.LosingTheOwnerCloses | lib/palwarden_lifecycle.py:1139-1162 | when the owner of an open transaction dies or fails to record completion, the marker is closed |
| LifecycleSafety.ClosedUntil | lib/palwarden_lifecycle.py:519-592 | a closed marker stays closed in every continuation without an acknowledgement |
| LifecycleSafety.FailClosedIffTheMarkerExists | lib/palwarden_lifecycle.py:519-592 | only an acknowledgement reopens a closed marker, in all runs exactly if the state file exists at the start |
| LifecycleSafety.DelayedCreation | lib/palwarden_lifecycle.py:450-516 | without a state file a delayed creation reopens an unsafe marker with no acknowledgement |
| LifecycleSafety.AckIsDeliberate | lib/palwarden_lifecycle.py:1086-1136 | an acknowledgement that lands saw the service stopped, held the lock from then on, and installs a generation no earlier marker had |
| LifecycleSafety.WakeFence | sbin/palwarden-jobd:1432-1462 | a wake that passes its re-check met the idle marker of its admission at every point between, with no step that would have made it stale and nobody joining a transaction |
| LifecycleSafety.DrawnGrows | lib/palwarden_lifecycle.py:384-386 | generations are never forgotten, so a fresh one differs from every earlier one |
| WakeRate.Starter.StartIfDown | lib/palwarden_lifecycle.py:841-956 | a start is issued only after its stamp was written, with the service stopped, the marker idle, and the check at least one cooldown after the last stamp |
| WakeRate.IssuedSpaced | lib/palwarden_lifecycle.py:740-755 | every two consecutive starts of any series of wakes are a cooldown apart, from check to former stamp |
| WakeRate.RateBound | lib/palwarden_lifecycle.py:697-755 | k starts stamped within W ms satisfy (k - 1) * cooldown <= W |
| WakeRate.StartsApart | lib/palwarden_lifecycle.py:894-927 | k starts in a row are (k - 1) cooldowns apart, less the delay of the first behind its stamp |
| WakeRate.RateBoundOfStarts | lib/palwarden_lifecycle.py:894-927 | k starts issued within W ms, each at most d after its stamp, satisfy (k - 1) * cooldown <= W + d |
| WakeRate.RateBoundWithoutPromptness | lib/palwarden_lifecycle.py:894-927 | however late they are, k starts issued within W ms satisfy (k - 2) * cooldown <= W |
| WakeRate.RateBoundIsTight | lib/palwarden_lifecycle.py:894-927 | for every delay up to the cooldown and every number of starts there are wakes that meet the bound exactly |
| WakeRate.StartsFarApartIffPrompt | lib/palwarden_lifecycle.py:894-927 | the bound of k - 1 cooldowns between starts holds in all series of wakes exactly if no start is later than its stamp |
| WakeRate.StartsCanBunch | lib/palwarden_lifecycle.py:894-927 | two starts can be issued at the same moment |
| Bytes.Utf16RoundTrip | tests/lib/gvas_fixture.py:19-26 | decoding the UTF-16 form of any string gives the string |
| GvasFormat.Walk | lib/palwarden_gvas.py:238-252 | reading a property list terminates on all bytes, and where it ends it lies within the file and past its beginning |
| GvasReader.Reader.ReadFString | lib/palwarden_gvas.py:161-172 | the string reader: ASCII or UTF-16 by the sign of the length, limits, cursor |
| GvasReader.Reader.Properties | lib/palwarden_gvas.py:238-252 | the loop over a property list reads exactly what the format says, cursor and notes included, and ends |
| GvasReader.Reader.OneProperty | lib/palwarden_gvas.py:255-331 | one property: scalar, container or unknown type, value, cursor and notes |
| GvasReader.Reader.Unknown | lib/palwarden_gvas.py:317-331 | an unknown type is skipped by flag and size if what follows looks like a property list, and the cursor is restored if not |
| GvasReader.Reader.Contained | lib/palwarden_gvas.py:334-348 | whatever the inner reader did, the cursor ends at the end of the extent, and the value stands only if it took exactly the extent |
| GvasReader.Reader.ReadArray | lib/palwarden_gvas.py:365-398 | arrays of structs, bytes and scalars |
| GvasReader.Reader.ReadMap | lib/palwarden_gvas.py:401-410 | maps, later keys winning |
| GvasReader.Reader.ReadSet | lib/palwarden_gvas.py:413-419 | sets of elements |
| GvasReader.Reader.PlausibleNext | lib/palwarden_gvas.py:448-463 | the look ahead leaves the cursor where it was; what is printable beyond ASCII is left open |
| GvasReader.Parse | lib/palwarden_gvas.py:204-217 | the parser returns for every byte string; only a bad header is an error, every other failure is among the notes |
| GvasLocality.WalkLocal | lib/palwarden_gvas.py:238-252 | a list that was read to its end is determined by the bytes up to there |
| GvasLocality.ContainedLocal | lib/palwarden_gvas.py:334-348 | whether a container's value is accepted, and what it is, depends only on the bytes of its extent, even where the inner reader ran past it |
| GvasLocality.ContainerIsolated | lib/palwarden_gvas.py:238-348 | replacing the bytes of one container's extent by any others changes no other property of the list and not its end |
| GvasLocality.PropertyAdvances | lib/palwarden_gvas.py:238-252 | each property kept or skipped leaves the cursor past where it began, by its head and more |
| GvasLocality.ItemsAdvance | lib/palwarden_gvas.py:238-252 | over a whole list the cursor moves on by at least sixteen bytes for each property |
| GvasRoundTrip.FStringRoundTrip | tests/lib/gvas_fixture.py:19-26 | an encoded string is read back exactly if it is within the reader's limit |
| GvasRoundTrip.ListBack | tests/lib/gvas_fixture.py:96-108 | an encoded list, at any depth and whatever follows it, is read as its tree with one note for each unknown type, and the cursor ends behind it; a sibling behind an unknown type must have a name that the reader takes for printable, whatever that means beyond ASCII |
| GvasRoundTrip.BrokenIffNotRecognisable | lib/palwarden_gvas.py:317-331 | the only encoded property the reader cannot take is one of unknown type in front of a sibling that does not look like one (a name of 1 to 120 printable characters, a type that ends in "Property") |
| GvasRoundTrip.ParseOfBuild | tests/lib/gvas_fixture.py:116-134 | parsing a built file gives exactly its tree, and the notes of its unknown types under the cap, under the same condition on siblings |
| GvasRoundTrip.ParseWithoutUnknowns | lib/palwarden_gvas.py:317-331 | taking the unknown types out of a file, at any depth, changes its notes and nothing else, under the same condition on siblings |
| GvasRoundTrip.UnknownsLeaveNotesOnly | lib/palwarden_gvas.py:192-196 | unknown types leave no trace in the tree and one note each |
| GvasRoundTrip.TreeIsExact | lib/palwarden_gvas.py:238-252 | with unique names every property is in the tree under its name |
| GvasRoundTrip.NotesUnderTheCap | lib/palwarden_gvas.py:192-196 | the recorded notes are the first 64, cut to 160 characters, and one marker if there were more |
| Presence.Store.ReserveObservation | lib/palwarden_presence.py:166-180 | hands out the next number |
| Presence.Store.ApplyObservation | lib/palwarden_presence.py:183-245 | the fence, the evidence and the bookkeeping of one observation, as one step |
| Presence.Store.InvalidateEvidence | lib/palwarden_presence.py:248-265 | clears validity and the empty interval and nothing else |
| Presence.Store.RecordIdentities | lib/palwarden_presence.py:268-341 | the loop over the list folds one sighting after the other into identities, sessions and playtime |
| Presence.Top | lib/palwarden_presence.py:319-325 | the session picked is one seen last, the latest row of several |
| PresenceEvidence.FenceRefines | lib/palwarden_presence.py:183-216 | the state after any history is that after the arrivals alone whose number exceeds all earlier ones |
| PresenceEvidence.NeverAhead | lib/palwarden_presence.py:166-216 | with reserved numbers the applied number never exceeds the reserved one |
| PresenceEvidence.EmptyEvidence | lib/palwarden_presence.py:218-239 | the empty interval is set exactly if the latest word was an empty list, and begins where the longest unbroken run of empty lists began |
| PresenceEvidence.LongestIsFirst | lib/palwarden_presence.py:218-239 | that run is the only longest one |
| PresenceEvidence.EvidenceIsBounded | lib/palwarden_presence.py:225-232 | k empty lists vouch for at most k - 1 gaps of 60 seconds |
| PresenceEvidence.EmptyIsVouchedFor | lib/palwarden_presence.py:183-265 | in every state of every history with the interval set, last success minus its beginning is at most 60 seconds times k - 1, for the k empty lists of the longest run |
| PresenceEvidence.PlaytimeConserved | lib/palwarden_presence.py:319-340 | a player's total is the sum of the sessions, is what the sightings earn against the latest time so far, and fits into any span that holds the sessions; sessions of positive length do not overlap |
| PresenceEvidence.CreditIsShortGaps | lib/palwarden_presence.py:326-335 | with a clock that does not go back the total is the sum of the gaps within the grace |
| IniConfig.SplitSettings | bin/palworld-config-parser:106-138 | the splitter's loop computes the specified parts |
| IniConfig.IndexKeys | bin/palworld-config-parser:162-176 | the last position of a key counts, and the first key that answers to a folded name (names folded in ASCII) |
| IniConfig.FoldedIsFirst | bin/palworld-config-parser:162-176 | a folded name leads to the first key that answers to it, and to none only if none does (names folded in ASCII) |
| IniConfig.UpdateSettings | bin/palworld-config-parser:215-248 | the update loop with its index built once computes the specified body (names folded in ASCII, numbers with ASCII digits) |
| IniLaws.SplitOfJoin | bin/palworld-config-parser:106-138 | splitting joined parts gives them back, but for an empty last one |
| IniLaws.JoinOfSplit | bin/palworld-config-parser:106-138 | joining the parts gives the body back, but for a top-level comma at its end |
| IniLaws.RenderKeeps | bin/palworld-config-parser:69-98 | a rendered value never upsets the splitter, keeps the shape (a bare word may become a truth value), and renders as itself again; digits and letter case are those of ASCII |
| IniLaws.ResolvedIsPlain | bin/palworld-config-parser:101-103 | a key found under an identifier is made of word characters (names folded in ASCII) |
| IniLaws.PartsAreIndependent | bin/palworld-config-parser:218-236 | each part depends on its own text and the values meant for it |
| IniLaws.PutAllSettles | bin/palworld-config-parser:227-236 | a part keeps its key and holds the last value that its shape let through |
| IniLaws.ChangedIffHit | bin/palworld-config-parser:215-241 | something is written exactly if some setting alone would rewrite a part as it was |
| IniLaws.ApplyIsLocal | bin/palworld-config-parser:215-248 | splitting the body after a run gives the original parts, each with its own last value, exactly if the body does not end in an empty part or nothing is written |
| IniLaws.ApplyIsIdempotent | bin/palworld-config-parser:215-248 | applying the same settings again gives the same text, exactly unless the body ends in an empty part and some setting is overridden by another of its key |
| IniLaws.OneEachIsIdempotent | bin/palworld-config-parser:215-248 | it always does when no two names meet in one key |
| IniLaws.NotAlwaysIdempotent | bin/palworld-config-parser:243-248 | the exceptional case occurs |
| IniFile.BodyUnbroken | bin/palworld-config-parser:77-98 | the rewritten body has a line break exactly if the last value meant for some quoted part has one |
| IniFile.FindsItsOwnWork | bin/palworld-config-parser:195-199 | the next run finds the settings as this one left them exactly if no such value has a line break |
| IniFile.FileIsIdempotent | bin/palworld-config-parser:195-253 | where that holds, no line but the first settings line is other than it was read, and a second run leaves the file as it is, exactly unless in the case of ApplyIsIdempotent |
| IniFile.LineBreakLosesTheSettings | bin/palworld-config-parser:195-199 | with a line break in a quoted value the first run succeeds and the second finds no settings line |
| EnvFile.UnescapeOfEscape | bin/palworld-config-parser:141-159 | the reader's two replacements undo the writer's escaping on every string |
| EnvFile.ReadOfLine | sbin/palwarden-jobd:771-773 | a written line is read back as it was meant |
| EnvFile.ReadEnvFile | bin/palworld-config-parser:141-155 | the reader's loop, later lines winning |
| EnvFile.WriteSettingsOverrides | sbin/palwarden-jobd:743-798 | writes the former values merged with the new ones; reading the file back gives exactly them, and success is reported exactly if it does |
| GameSettings.ValidateGameSettings | sbin/palwarden-jobd:498-560 | the form's loop: the first refusal ends it (names folded in ASCII, numbers with ASCII digits) |
| GameSettings.AcceptedIsGood | sbin/palwarden-jobd:532-560 | every accepted setting names a live key, outside of the passwords and the REST keys, whose value would give way |
| GameSettings.AppliedToTheSameKey | bin/palworld-config-parser:218-225 | a stored key comes back to itself exactly if it is not ignored, is no exception for another key, and no earlier key shadows it (names folded in ASCII) |
| GameSettings.KeysAreUndisputed | bin/palworld-config-parser:218-225 | where all names are live keys, none ignored or an exception, and no two keys fold alike, each key is found under its own name alone |
| GameSettings.ItIsApplied | bin/palworld-config-parser:215-236 | a stored value whose key is found under its own name alone ends up in the part of that key |
| GameSettings.FormAgreesWithApply | sbin/palwarden-jobd:498-560 | what the form accepted is later applied to the same key with the rendering the form foresaw, if its name alone leads there and the shape is the same |
| GameSettings.FormAgreesExactly | sbin/palwarden-jobd:498-560 | whatever else is stored, the key has what the form foresaw exactly if the last value let through of all that reach it renders to that, or none is and it was there already |
| GameSettings.StoredIsWritable | sbin/palwarden-jobd:743-798 | what the form stores survives the file |
| GameSettings.ShadowedKey | sbin/palwarden-jobd:543-545 | on a file with two keys that fold alike, the form accepts a short name for the second, and the stored setting is applied to the first |
| Utf8.DecodeConcat | sbin/palwarden-jobd:1345-1377 | text cut behind newlines is decoded piece by piece |
| JobStore.AppendsAreCapped | lib/palwarden_jobs.py:368-376 | after any number of appends the job holds the whole text, or its first 262144 characters and one marker |
| JobStore.Store.RunStep | sbin/palwarden-jobd:1300-1394 | however a step's bytes arrive, every flush but the last ends at a newline, the flushes are the bytes, and the stored output is the capped whole text |
| JobStore.Store.AppendOutput | lib/palwarden_jobs.py:368-376 | one append under the cap |
| JobStore.Store.ScrubConfigToken | sbin/palwarden-jobd:1465-1499 | after the scrub the job holds no token and is otherwise the same |
| JobStore.Store.ClaimNext | lib/palwarden_jobs.py:379-386 | the oldest queued job of the listing becomes running, and nothing happens if there is none |
| JobStore.Store.ReapOrphans | sbin/palwarden-jobd:1708-1730 | exactly the listed running jobs are noted, scrubbed and failed |
| JobStore.ListingIsComplete | lib/palwarden_jobs.py:291-300 | up to 1000 files the listing leaves nothing out |
| JobRuns.InvHolds | sbin/palwarden-jobd:1589-1787 | at every point of every run with crashes: a job is claimed once, an unclaimed one is queued, and the worker's job is its last claim |
| JobRuns.CommandsUnderOneClaim | sbin/palwarden-jobd:1502-1586 | the commands of a job are all started under one claim |
| JobRuns.OnlyForward | sbin/palwarden-jobd:1589-1705 | a job moves only from queued to running to ended, and an ended one stays as it is |
| JobRuns.GoneForGood | lib/palwarden_jobs.py:398-411 | a pruned job does not come back |
| JobRuns.CleanIffNothingStranded | sbin/palwarden-jobd:1465-1499 | in every run, no ended job ever holds its token exactly if no job whose scrub failed while it held it is ended with nothing but submissions between |
| JobRuns.EndedJobsAreClean | sbin/palwarden-jobd:1465-1499 | whatever crashes, no ended job holds its token as long as no scrub fails |
| JobRuns.FailedScrubStrandsTheToken | sbin/palwarden-jobd:1708-1787 | after a failed scrub, of the worker or of the reaping, an ended job can hold its token |
| JobRuns.ClaimsFollowSubmission | lib/palwarden_jobs.py:379-386 | with at most 1000 files and increasing numbers, jobs are claimed exactly in the order of submission |
| Retention.Directory.PruneArchives | sbin/palworld-backups:365-434 | the loop over the listing from the oldest name on, with its floor, its guard and what it passes over, leaves and returns the specified archives |
| Retention.Directory.NewestArchiveMtime | sbin/palworld-backups:437-455 | the largest modification time of the archives that can be inspected, and none only if no archive can |
| Retention.Directory.RunTick | sbin/palworld-backups:579-623 | one tick: the backup if it is due, then the prune |
| RetentionLaws.ExactlyTheExpired | sbin/palworld-backups:365-434 | with a floor of at least one, what is missing in the end is exactly what others took away and what is outside the newest names, past the window, and can be removed |
| RetentionLaws.SomethingIsLeft | sbin/palworld-backups:404-418 | with any floor and any failures, something is left exactly if nothing of the listing was taken away by others or something that was not is protected |
| RetentionLaws.NeverEmptied | sbin/palworld-backups:404-408 | with any floor, and whatever cannot be removed, a directory that held an archive still holds one if nobody else removes any meanwhile |
| RetentionLaws.VanishedCanEmpty | sbin/palworld-backups:409-414 | if somebody does, a prune can empty the directory, with the floor at zero and at one |
| RetentionLaws.PruneAgain | sbin/palworld-backups:365-434 | a second prune at the same time removes nothing, whatever the first one met |
| RetentionLaws.CountIsBounded | sbin/palworld-backups:458-475 | from any directory spaced by the interval, if only scheduled ticks make archives and each can inspect them all, the count after a prune is at most the floor, or 24 * days / hours rounded down plus one |
| JsonString.LoadsOfDumps | lib/palwarden_ops.py:187-195 | loading a dump gives the text with adjacent surrogates paired, and the text itself exactly if there are none |
| OpsConfig.TwoForms | lib/palwarden_ops.py:74-123 | the stored string and the value in memory are two views of one value |
| OpsConfig.ParseFile | lib/palwarden_ops.py:143-203 | the parser's loops compute the specified result, error for error |
| OpsRoundTrip.ParseOfRender | lib/palwarden_ops.py:242-247 | what is rendered is read as exactly the stored values, with or without the last newline |
| OpsRoundTrip.HeldOfStored | lib/palwarden_ops.py:115-123 | the stored values stand for the values in memory |
| OpsRoundTrip.RenderOfParse | lib/palwarden_ops.py:143-203 | an accepted text is the rendering of a valid configuration, but for the last newline |
| OpsRoundTrip.OneTextEach | lib/palwarden_ops.py:242-247 | two valid configurations have the same file exactly if they hold the same values |

## Left out

- Kernel and file matters: O_NOFOLLOW, ownership checks, temporary names, fsync, descriptor flags. Where the program replaces a file, the model replaces a value.
- One write of the state file is one atomic step, and so is one SQLite transaction, one job file update and one unlink.
- Generations, job ids: a draw is a value not drawn before; in the program it is 128 (or fewer) random bits.
- The exit trap that records completion in bash is one step of the owner; a crash before it is the owner leaving.
- Service state and readiness are inputs; systemd, s6, SteamCMD, Discord, HTTP and authentication are not modelled. sbin/palworld-knock is not part of this model; its re-check under the lock is taken from the code it shares with the worker.
- The expiry time of a wake request, which is compared with the wall clock next to the fence, and the refusal to admit a wake behind a disruptive job.
- zlib and Oodle decompression. Floats and GUIDs of a save are kept as their bytes; a GUID or float used as a map key is rendered byte by byte instead of in Python's notation.
- The limit that Python puts on recursion in nested saves.
- Printable, upper and lower case, digits: settings names are folded in ASCII only, and numbers have ASCII digits, so a key or value that relies on the case or the digits of another script is not covered. Which characters beyond ASCII are printable is left open: the save reader's test is a constant without a value, the form's a parameter of which only the absence of line breaks is assumed.
- Which of several sessions last seen at the same time SQLite returns: the model takes the latest row, as a scan of the index backwards does. The presence row is taken to exist.
- The regular expression for the settings line is modelled as: the first line that begins with the opening and, blanks at its end apart, ends with a parenthesis. Bytes of the file that do not decode are dropped before the modelled part.
- The order in which the overrides file lists its keys, and the wording and the time in its header.
- The size limits of request bodies, `validate_params` for the other actions, and the schedule form, whose normalised output it does not accept itself.
- Job files: the queue listing is complete only up to 1000 files, so claims beyond that are not in order. Of failures, those that the worker survives in a scrub and in its last write, and a scrub that the reaping of orphans cannot do, are modelled; all others are crashes. A job file that vanishes or is refused while its job is being worked on is not modelled.
- JobStore.Store.RunStep: does not model the deadline and the polling, only that the output ends or time runs out.
- Archive names stand for their order: a directory is the sequence of its archives, newest name first. Other hands may take archives away while a prune runs, but add none.
- OpsConfig.ParseFile: an argument that is no regular file or not UTF-8 is refused before the modelled part; JSON with blanks around the string is refused in the model under the same heading as any other non-canonical text.
- `merge`, `public_view`, `public_job`, archive member rules, credential files, report and graph tools: they would only add easy members.
