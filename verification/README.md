# bg-coolify-migrate, modelled and proved

A Dafny model of the hard parts of a tool that moves Coolify resources from one server to
another: a crash-safe saga over an append-only journal, the recovery of locked environment
variables from the files Coolify writes, the hand-over of custom hostnames, and the matching
that decides whose data goes where. Run `dafny verify dfyconfig.toml` in this directory.

## What is here

| file | what it holds |
|---|---|
| `Wrappers.dfy`, `Text.dfy` | options and results; replacement and lines of text |
| `EnvEncoding.dfy`, `EnvTexts.dfy` | the four encodings of an environment value, and their inverse; the texts they are, character by character |
| `Dotenv.dfy` | the splitter of a Coolify-written dotenv file: its loops, and the scan they implement |
| `LockedEnvs.dfy` | printing a file, reading it back, and the rule that decides which record is trusted |
| `Recovery.dfy` | from a file to the value of one locked variable |
| `RecoveryLimits.dfy` | exactly which values, and which ends of a file, can be answered wrongly |
| `StateMachine.dfy` | the rollback planner, for any state machine |
| `Migration.dfy` | the project migration's states, undo actions and refusals |
| `Journal.dfy` | the folds over a journal's records |
| `Utf8.dfy`, `JournalFile.dfy` | strict UTF-8; the bytes a journal lives in, with lines torn at any byte |
| `Restarts.dfy` | restarting the stopped source, once per stop |
| `Protocol.dfy` | the migration as a transition system over journal, process and volumes |
| `ProtocolSafety.dfy` | its invariants, and what they keep safe |
| `ProtocolRuns.dfy`, `ProtocolExact.dfy`, `ProtocolGaps.dfy` | putting runs together; exactly which steps can lose the data or a restart; complete runs that take one |
| `Executor.dfy` | the executor as a class, every execution of which is a run of the protocol |
| `Pins.dfy` | volume pins: making them, and releasing them only on evidence |
| `HostNames.dfy`, `Domains.dfy` | reading and replacing the host of a URL; host rewriting and domain lists |
| `Handover.dfy`, `HandoverGaps.dfy` | make-before-break inside the phases and plans of the protocol; the runs that show each rule is needed |
| `EnvCopy.dfy` | the order of a non-transactional bulk write |
| `Naming.dfy`, `Manifest.dfy` | volume pairing; three-source reconciliation |
| `Schedules.dfy` | exactly-once creation through a retrying client |
| `Versions.dfy` | release order, gates and text form |

In the tool's own terms:

* **Data safety.** `Protocol` has one process at a time that walks, dies anywhere, blocks,
  resumes, fails, rolls back, is refused, and rolls back again, while Coolify lands queued
  stops and restarts late and deletes any volume that neither a container nor a pin
  references. `ProtocolSafety.DataIsAlwaysSafe` holds in every state of every such run that
  is disciplined, which is a condition on each step:
  a run is resumed after a rollback only where FINALIZE is done, or the target still is what
  the journal claims of it, or the source runs with nothing queued and will not be deleted;
  no data is pruned on the source between the guard's look and its pin;
  and after an unpin a rollback is asked for only where the guard will pin or refuse, or no
  stop was requested, or every source is recorded as restarted, or the volumes are pinned.
  `ProtocolExact.DisciplineIsExact` proves that these conditions are exact: a step that breaks
  one can always be followed, by disciplined steps alone, to a state in which neither side
  holds the data. So a finished KEEP or RENAME can be unpinned and rolled back safely.
  `ProtocolGaps` has complete runs that come to such a step. Where the text in the
  source promises more, the code is followed: the guard pins the volumes a moment after it
  has looked for them and `ensure` skips one that is gone by then
  (`engine/compensations.py:680-691`, `discovery/pins.py:296-303`); a journal is finished
  only by a last record `finished` or `rolled_back`, so a rollback cut short can be resumed
  (`journal/store.py:321-324`); and `unpin` followed by `rollback` restarts a source whose
  restart had failed, with no pin left.
* **Restarts.** The journal never names a source as restarted twice without a stop in between.
  That Coolify takes only one restart per stop needs every restart taken to be recorded, and
  `ProtocolExact.RecordingIsExact` proves that exactly a lost answer, or a process that dies
  before the record, lets a later rollback restart the source again.
* **The journal's bytes.** The text in `journal/store.py:218-225` promises that a truncated
  final line is skipped. It is, unless the crash cut a character: the strict decoding of
  `journal/store.py:228` then fails for the whole file, and for good.
* **Locked variables.** `decode` is an exact inverse for every row, value and file kind. The
  record splitter is the harder half: in a file whose values leave no quote open behind their
  own record, a trusted record never holds a truncated or foreign value, wherever values hold
  newlines. The promise in `domain/locked_envs.py:336-346` that a wrong value is never returned
  is false beyond that, and `RecoveryLimits.FollowableIsHarmless` says for which values
  exactly. A legacy literal or JSON value over several lines can leave a quote open that runs
  into the next rows; what is read for one of those may then come from inside another value
  (`RecoveryLimits.JsonHidesALine`), and a literal can itself be cut and trusted
  (`Recovery.TruncatedLiteralIsRecovered`). And a plain value that ends in its only newline,
  last in a file without a final newline, prints like the value without it
  (`Recovery.UnterminatedCollides`; `RecoveryLimits.EndIsHarmless` says when that matters).
* **Hostnames.** Every custom host is held by its source or its target in every state of
  every run, unless someone else takes it from its last holder, from the target between
  FINALIZE's check and its release, from the source between the read and the delete of an
  undo, or - when FINALIZE deletes the source, which it does without a look at the target -
  from the target at any time after CREATE; or such a migration is resumed after a rollback.
  Each of the five is needed by a complete run in `HandoverGaps` that breaks only that one.
* **Server-bound hosts.** A URL is rewritten by splitting it and putting the new host in front
  of its port and path. `HostNames.WithHostReads` says what is read of the result for every
  split: the new host and whatever runs on from it. Nothing does when the split found an
  authority. When it did not, the old host runs on (an address without a scheme and with a
  `://` further on) or its port does (an address whose host is taken for the scheme), and what
  the target is given may lead back to the source; `Domains.ToolPointsBack` says for every list
  exactly when.

## Model

| member | source | states |
|---|---|---|
| Text.SequentialIsTable | src/bg_coolify_migrate/domain/locked_envs.py:271-284 | replacing characters one kind after the other equals one pass with a table whenever no replacement text holds a later search character |
| EnvEncoding.EscapeIsSequential | src/bg_coolify_migrate/domain/locked_envs.py:271-284 | the six-character escaping meets that condition, so the table form equals the upstream sequence |
| EnvEncoding.UnescapeComposeEnvFileValue | src/bg_coolify_migrate/domain/locked_envs.py:366-382 | the loop returns the unescaped inside of a quoted text, or nothing when a quote is bare or an escape is unknown |
| EnvEncoding.UnescapeEnvVariables | src/bg_coolify_migrate/domain/locked_envs.py:385-397 | the loop undoes the legacy escaping, or returns nothing |
| EnvEncoding.EncodeInjective | src/bg_coolify_migrate/domain/locked_envs.py:326-333 | no two values of one row share an encoding, for every flag combination and both file kinds |
| EnvTexts.ExactDotenvText | src/bg_coolify_migrate/domain/locked_envs.py:287-333 | character by character: in the dotenv file a value stands between double quotes, each backslash and double quote behind one backslash, and each dollar sign of a literal, multiline or JSON value, and of no other |
| EnvTexts.ExactComposeText | src/bg_coolify_migrate/domain/locked_envs.py:295-333 | in the Compose file such a value has each dollar sign twice, and any other is as it is |
| EnvTexts.LegacyText | src/bg_coolify_migrate/domain/locked_envs.py:300-313 | before exact escaping a JSON object or array is as it is, a literal or multiline value stands between single quotes, and any other has six characters behind a backslash |
| EnvTexts.DollarsOfExactText | src/bg_coolify_migrate/domain/locked_envs.py:287-292 | a reader of the exact dotenv text finds every dollar sign of a protected value escaped and every one of any other bare, and the end of the value at its last quote and nowhere before |
| EnvEncoding.DecodeIsInverse | src/bg_coolify_migrate/domain/locked_envs.py:336-363 | decoding returns a value if and only if it is not empty and encodes to the text |
| Dotenv.MatchKey | src/bg_coolify_migrate/domain/locked_envs.py:437-457 | finds the key that opens a line, if one does |
| Dotenv.FindDoubleQuote | src/bg_coolify_migrate/domain/locked_envs.py:485-493 | finds the first quote no backslash escapes |
| Dotenv.FindSingleQuote | src/bg_coolify_migrate/domain/locked_envs.py:496-501 | finds the first single quote that ends the text or its line |
| Dotenv.ParseDotenv | src/bg_coolify_migrate/domain/locked_envs.py:437-482 | the position loop yields exactly the records and the leftover flag of the recursive scan, and groups the records by key in file order |
| LockedEnvs.ScannedWhole | src/bg_coolify_migrate/domain/locked_envs.py:458-478 | the record of any encoded value is cut at the value's end, whatever follows its line, if and only if the value is exact, or literal with no inner quote ending a line, or unquoted on one line |
| LockedEnvs.CutIsNotTrusted | src/bg_coolify_migrate/domain/locked_envs.py:658-676 | a record cut at a newline is never trusted: its spilled lines are a leftover, a repeated or unexpected key, or leave its end unproven |
| LockedEnvs.TrustedIsWritten | src/bg_coolify_migrate/domain/locked_envs.py:802-861 | whatever surrounds it, a trusted record holds exactly the raw text written for its key, in every file whose values leave no quote open behind their own record |
| Recovery.TrustedMeans | src/bg_coolify_migrate/domain/locked_envs.py:802-866 | exactly when a record is trusted, in records and keys alone: it is the only one of its key, and either a double quote closes it, or nothing is left over, no key is read twice, every key is a row or a generated name, and the record ends the file or stands before the line of a certain row, HOST=0.0.0.0 or a numeric PORT |
| LockedEnvs.CleanIsPrinted | src/bg_coolify_migrate/domain/locked_envs.py:437-482 | with no leftover, no repeat and no unwritten key the parse equals the printed list |
| LockedEnvs.WholeRoundTrip | src/bg_coolify_migrate/domain/locked_envs.py:437-482 | a file of whole records is read back as it was printed |
| Recovery.EncodedIsDelimitable | src/bg_coolify_migrate/domain/locked_envs.py:300-333 | every encoded value has one of the shapes the splitter knows; exact, escaped and one-line values can always be followed, and the others exactly if what they spill over later lines leaves no quote open |
| Recovery.RecoveredIsWritten | src/bg_coolify_migrate/domain/locked_envs.py:843-869 | recovery returns the row's own value or nothing, for every file of followable values whose end is not cut off silently |
| RecoveryLimits.FollowableIsHarmless | src/bg_coolify_migrate/domain/locked_envs.py:843-869 | a value never makes recovery answer wrongly, in whatever file of followable values it stands, if and only if it is followable itself |
| RecoveryLimits.EndIsHarmless | src/bg_coolify_migrate/domain/locked_envs.py:477-478 | the last value of a file without a final newline never makes recovery answer wrongly if and only if the text without its newline decodes to nothing |
| RecoveryLimits.JsonHidesALine | src/bg_coolify_migrate/domain/locked_envs.py:477-478 | a concrete JSON value over three lines for which an exactly escaped row next to it is answered with another value |
| Recovery.ExactFileRecovers | src/bg_coolify_migrate/domain/locked_envs.py:843-869 | in a file of exactly escaped rows with distinct keys every non-empty value is recovered |
| Recovery.TruncatedLiteralIsRecovered | src/bg_coolify_migrate/domain/locked_envs.py:471-476 | a concrete pair of literals for which a truncated value is trusted and decoded |
| Recovery.UnterminatedCollides | src/bg_coolify_migrate/domain/locked_envs.py:477-478 | a last plain value ending in its only newline prints like the value without it |
| Recovery.SingleCopyIsTwoReads | src/bg_coolify_migrate/domain/locked_envs.py:421-434 | a text is accepted if and only if the output is that text twice with a NUL between |
| StateMachine.RollbackPlanFor | src/bg_coolify_migrate/domain/statemachine.py:229-275 | the loops that build and reorder the list compute the plan function |
| StateMachine.ReversedOwes | src/bg_coolify_migrate/domain/statemachine.py:260-268 | a step is planned if and only if its state is ordered, completed and owes it |
| StateMachine.MoveBeforeMoves | src/bg_coolify_migrate/domain/statemachine.py:269-274 | one precedence rule keeps the steps and the order of the others, and puts the first directly before the second if it came later |
| StateMachine.PlanIsOwed | src/bg_coolify_migrate/domain/statemachine.py:229-275 | for any machine, any completed list and one rule: exactly the owed steps, each once with its own state, in reverse state order but for the moved one |
| Migration.OwedStates | src/bg_coolify_migrate/domain/statemachine.py:306-338 | the owed states, each once: completed, plus in flight or flagged except QUIESCE, plus QUIESCE when its stop was requested |
| Migration.PlanIsMigrationPlan | src/bg_coolify_migrate/domain/statemachine.py:149-174 | the generic planner on this machine gives the closed-form plan |
| Migration.RestartsOnce | src/bg_coolify_migrate/domain/statemachine.py:149-174 | a plan restarts the source once if QUIESCE is owed and never otherwise |
| Migration.PlanOrder | src/bg_coolify_migrate/domain/statemachine.py:129-174 | stop before drop before delete; domains directly before the restart; pins last |
| Journal.ReadCompletedStates | src/bg_coolify_migrate/journal/store.py:251-257 | the loop computes the fold over completed records |
| Journal.ReadInFlightState | src/bg_coolify_migrate/journal/store.py:259-276 | the loop computes the fold of starts and endings |
| Journal.ReadUndoIncompleteStates | src/bg_coolify_migrate/journal/store.py:278-288 | exactly the states whose latest flag is set |
| Journal.ReadUndoInfo | src/bg_coolify_migrate/journal/store.py:296-311 | one state's merged detail, the rollback's own records left out |
| Journal.ReadDetails | src/bg_coolify_migrate/journal/store.py:313-319 | every state's merged detail in one pass |
| Journal.CompletedMeans | src/bg_coolify_migrate/journal/store.py:251-257 | a state is completed if and only if some record says its step was |
| Journal.UndoFlagIsLatest | src/bg_coolify_migrate/journal/store.py:278-288 | a flag is set if and only if the latest record that carries one holds neither false nor an empty text |
| Journal.DetailsAgree | src/bg_coolify_migrate/journal/store.py:296-319 | the one-pass merge agrees with the per-state one for every state |
| Journal.MarkIsLatest | src/bg_coolify_migrate/journal/store.py:313-319 | a marker is what the latest record of its state says, and absent only if none does |
| Journal.InFlightMeansInside | src/bg_coolify_migrate/journal/store.py:259-276 | a state is in flight if and only if its start is the last start and nothing has ended it since |
| Journal.PlanRollback | src/bg_coolify_migrate/engine/executor.py:288-313 | planning from the journal, automatic or explicit, yields the closed-form plan of exactly the owed states |
| Journal.RestartIsPlannedOnce | src/bg_coolify_migrate/domain/statemachine.py:294-338 | for every journal both plans restart the source exactly once if it may have been stopped, and never otherwise |
| Utf8.DecodeIsInverse | src/bg_coolify_migrate/journal/store.py:228-228 | strict decoding succeeds on the encodings of texts and nothing else, and gives back the text |
| JournalFile.File.Open | src/bg_coolify_migrate/journal/store.py:151-178 | a file opens if and only if its bytes are a text, and takes up the numbering at the greatest readable number |
| JournalFile.File.Read | src/bg_coolify_migrate/journal/store.py:218-249 | reading decodes strictly, and then yields the records of the lines that parse, in order |
| JournalFile.File.Append | src/bg_coolify_migrate/journal/store.py:180-214 | an append keeps every newline-terminated record and adds the new one unless it joined a torn line; numbers keep increasing; a file that could not be read stays so |
| JournalFile.File.Tear | src/bg_coolify_migrate/journal/store.py:205-209 | a crash after any number of a line's bytes changes no terminated record if it falls between two characters, and otherwise leaves a file that cannot be read |
| JournalFile.TerminatedRecordsSurvive | src/bg_coolify_migrate/journal/store.py:218-249 | terminated records before a torn one are all read, and still after any number of later appends, of which only the first can be lost, if the tear is between two characters; otherwise none is read, then or later |
| JournalFile.TerminatedRecordsAreRead | src/bg_coolify_migrate/journal/store.py:218-249 | over any sequence of writes and crashes the file can be read if and only if no crash cut a character, and then every record written to its end on its own line is read |
| JournalFile.CrashesAreHarmlessForAscii | src/bg_coolify_migrate/journal/store.py:201-209 | no crash while a line is written can make a journal unreadable if and only if the line is ASCII |
| Restarts.ReadRestartedSinceStop | src/bg_coolify_migrate/engine/compensations.py:432-453 | the loop computes the set that each stop request clears |
| Restarts.RestartedMeans | src/bg_coolify_migrate/engine/compensations.py:432-453 | a source counts as restarted if and only if a rollback record names its restart with no stop request of QUIESCE behind it |
| Restarts.UndoQuiesce | src/bg_coolify_migrate/engine/compensations.py:376-429 | restarts exactly what was not restarted since the stop, keeps one restart per stop, names every failure, and without one leaves everything restarted |
| ProtocolSafety.DataIsAlwaysSafe | src/bg_coolify_migrate/engine/executor.py:231-311 | in every state of every disciplined run the source holds its data, or, once FINALIZE began and until a rollback does, the verified target copy does (in a run resumed after a rollback, one of the two); no compensation runs after FINALIZE(delete) began or on a source that lacks data |
| ProtocolExact.DisciplineIsExact | src/bg_coolify_migrate/engine/compensations.py:645-691 | after any disciplined run, a step that the protocol allows breaks the discipline if and only if the data can be lost from there with every later step disciplined |
| ProtocolSafety.CompletedIsAPrefix | src/bg_coolify_migrate/engine/executor.py:161-218 | in every run the completed states are the first so many of the order, each once, and the state in flight is the one a run went into and none came out of |
| ProtocolSafety.MarkedAlways | src/bg_coolify_migrate/engine/steps.py:2372-2392 | in every run FINALIZE records its policy after the copy was verified and before it acts, and never another one; QUIESCE its stop before it asks for it |
| ProtocolSafety.NotedOncePerStop | src/bg_coolify_migrate/engine/compensations.py:432-453 | over any run no source is recorded as restarted twice without a stop in between |
| ProtocolSafety.RestartedOncePerStop | src/bg_coolify_migrate/engine/compensations.py:376-453 | over any run in which no answer is lost and no process dies between a restart's answer and its record, Coolify takes at most one restart of a source per stop |
| ProtocolExact.RecordingIsExact | src/bg_coolify_migrate/engine/compensations.py:404-453 | after any disciplined run that recorded every restart, a step loses the record of one if and only if some source can, from there and with every later restart recorded, be restarted twice for one stop |
| ProtocolGaps.CrashBeforeNoteRestartsTwice | src/bg_coolify_migrate/engine/compensations.py:404-419 | a whole run in which the process dies between the answer and the record, and one stop is followed by two restarts |
| ProtocolGaps.PruneDuringLookLosesData | src/bg_coolify_migrate/engine/compensations.py:676-691 | a whole run in which a prune between the guard's look and its pin loses the data |
| ProtocolGaps.ResumeAfterRollbackLosesData | src/bg_coolify_migrate/engine/runner.py:337-362 | a whole run in which resuming a rollback cut short loses the data |
| ProtocolGaps.RollbackAfterUnpinLosesData | src/bg_coolify_migrate/engine/runner.py:455-499 | a whole run in which a rollback after an unpin loses the data |
| Executor.Saga.Start | src/bg_coolify_migrate/engine/executor.py:161-218 | everything the run loop does is a run of the protocol, and its outcome is what the journal ends with |
| Executor.Saga.Perform | src/bg_coolify_migrate/engine/steps.py:2728-2742 | a step that says it is done has made true what its completion stands for, and one that dies anywhere leaves a run of the protocol; VERIFY fails if and only if the copy is not whole |
| Executor.Saga.QuiesceSource | src/bg_coolify_migrate/engine/steps.py:1006-1052 | pin, marker, stop, with a possible death after each: done only after all three |
| Executor.Saga.CopyVolumes | src/bg_coolify_migrate/engine/steps.py:1818-1873 | every data volume the target has for certain is pinned before any is filled, and what arrives is then there, with a possible death after each |
| Executor.Saga.FinalizeSource | src/bg_coolify_migrate/engine/steps.py:2372-2447 | the policy is on disk before anything is let go of: when it is done the source's pins are gone, and the target's are unless its containers did not mount all of them at the look; under DELETE each resource of the source was deleted |
| Executor.Saga.Rollback | src/bg_coolify_migrate/engine/executor.py:220-229 | an explicit rollback that ends attempts exactly the compensations its journal owed, in plan order; it is refused only after FINALIZE(delete), or when the guard of a kept or renamed source could not see or pin all its data, and never carried out after FINALIZE(delete) or past a guard that could not read or pin |
| Executor.Saga.RollBackFrom | src/bg_coolify_migrate/engine/executor.py:302-391 | refused, or every owed compensation attempted whatever became of the ones before it, and reported as worked only if all did |
| Executor.Saga.Guard | src/bg_coolify_migrate/engine/executor.py:231-279 | clears no rollback of an irreversible migration, and one of a kept or renamed source only after every copied volume was found and those still there were pinned; refuses no other |
| Executor.Saga.Compensate | src/bg_coolify_migrate/engine/compensations.py:39-700 | each undo action changes what it is there for and nothing else; the source's pins go if and only if its containers keep every pinned volume mounted and, after a stop, the restart was accepted |
| Executor.Saga.RestartSources | src/bg_coolify_migrate/engine/compensations.py:376-429 | restarts exactly the sources not restarted since the stop whose requests are taken, and reports success if and only if every source is recorded as restarted |
| Executor.Saga.Restart | src/bg_coolify_migrate/engine/compensations.py:404-419 | a restart that Coolify took is recorded, or its answer was lost and it counts as failed, or the process died |
| Executor.Saga.Unpin | src/bg_coolify_migrate/engine/runner.py:455-506 | refused if and only if the migration is unfinished; writes nothing to the journal, and lets go of each side whole, unless its containers did not mount all that is pinned at the look |
| Executor.SagaKeepsDataSafe | src/bg_coolify_migrate/engine/executor.py:113-391 | whatever calls and deaths there were, unpins among them, if the run was disciplined the data is safe and the completed states are a prefix; and restarts are once per stop if each was recorded |
| Pins.ReleaseWhenReferenced | src/bg_coolify_migrate/discovery/pins.py:374-433 | releases a pin that is not idle at the first look that ends a window of at least the settle time in which every look found each volume of such a pin that is not anonymous mounted by a running container; keeps it at the first look past the timeout that misses one, and names exactly those that no running container mounts; always ends within timeout + settle + two intervals |
| Pins.AwaitMounts | src/bg_coolify_migrate/discovery/pins.py:401-433 | the polling loop itself, in the same terms |
| Pins.OurPins | src/bg_coolify_migrate/discovery/pins.py:196-257 | the pins of one side of one migration are exactly the containers with its labels that are stopped |
| Pins.Host.Ensure | src/bg_coolify_migrate/discovery/pins.py:274-313 | existing pins stay, every wanted volume that exists is held, no other is, nothing is pinned twice, nothing mounted is called idle |
| Pins.Host.Remove | src/bg_coolify_migrate/discovery/pins.py:335-355 | removes exactly the named pins |
| Pins.ProtectedOnce | src/bg_coolify_migrate/discovery/pins.py:287-299 | ensuring twice is ensuring once |
| Domains.RemapIsABijection | src/bg_coolify_migrate/dns/wildcard.py:51-86 | remapping is defined exactly on the hosts under one base, lands under the other, and remapping back undoes it |
| Domains.RemapIsInjective | src/bg_coolify_migrate/dns/wildcard.py:64-86 | no two hosts become one |
| Domains.RemapMeans | src/bg_coolify_migrate/dns/wildcard.py:51-86 | the base goes to the base, what stands before a dot and the base stays before it, and no other host is under the base or moves |
| Domains.RemapDomains | src/bg_coolify_migrate/api/resources.py:360-394 | the loop over a domain list computes the remapped list, without repeats and in the order in which each first occurs |
| Domains.ReleaseKeepsTheRest | src/bg_coolify_migrate/domain/domains.py:122-128 | a released source keeps every host but the custom ones |
| Domains.ClaimCarriesCustom | src/bg_coolify_migrate/api/resources.py:417-439 | the claim carries every part with a custom host in its own words |
| Domains.ClaimHosts | src/bg_coolify_migrate/api/resources.py:417-439 | the claim names a host if and only if it is a custom host of the source or the remap of a server-bound one that was not generated, if each rewritten part reads back |
| Domains.NothingPointsBack | src/bg_coolify_migrate/api/resources.py:360-439 | no value names a host under the source's wildcard that is not under the target's too, if each rewritten part reads back |
| Domains.ToolPointsBack | src/bg_coolify_migrate/api/resources.py:360-410 | for the tool's own reader and every list: what the target is given names a host under the source's wildcard and not under the target's if and only if, in some rewritten part, something runs on from the new host and the two together are such a host |
| HostNames.WithHostReads | src/bg_coolify_migrate/api/resources.py:397-410 | of a URL whose host was replaced, however the old one was split, the reader finds the new host with what runs on from it, or nothing if the two are not a host |
| HostNames.ReadsBackExactly | src/bg_coolify_migrate/dns/extract.py:102-125 | so it reads back as the new host if and only if nothing runs on |
| HostNames.WithHostReadsBack | src/bg_coolify_migrate/api/resources.py:397-410 | a URL whose host was replaced normalises to the new host, whatever its scheme, port and path, if splitting it found where its path begins |
| HostNames.RewrittenUrl | src/bg_coolify_migrate/api/resources.py:397-410 | a rewritten URL keeps its scheme, or gets https, its port, and its path but for the slashes that end it |
| HostNames.AddressNamesHost | src/bg_coolify_migrate/dns/extract.py:102-125 | every ordinary address names its host with small letters: with a scheme or none, a port or none, a path, a query or none, and white space around it |
| HostNames.OnlyHostsAreRead | src/bg_coolify_migrate/dns/extract.py:102-125 | whatever is read as a host is one in small letters, but for a newline the pattern lets through at its end |
| Domains.ToolReadsBack | src/bg_coolify_migrate/dns/extract.py:102-125 | between two bases that are hosts, the tool's own normalisation reads a list back if and only if nothing runs on from the host in any part it rewrites, which it never does where the split found an authority |
| Domains.PathOnlyPointsBack | src/bg_coolify_migrate/api/resources.py:397-410 | a server-bound address split into a path alone never reads back: the target is given the new host with the old one behind it, which leads to the source and not to the target unless the old host is the bare base or the target's base ends the two |
| Domains.HostForScheme | src/bg_coolify_migrate/api/resources.py:397-410 | one whose host is taken for the scheme puts the new host with the port behind it into the value, so it reads back if and only if it has no port |
| Domains.CreateHostsRead | src/bg_coolify_migrate/api/resources.py:417-439 | for every list the target is created with exactly the hosts that are read of the rewritten parts |
| Domains.ClaimHostsRead | src/bg_coolify_migrate/api/resources.py:417-439 | for every list it claims exactly those and the custom hosts the source still holds |
| Domains.CreatesRemapExactly | src/bg_coolify_migrate/api/resources.py:417-439 | one server-bound part that was not generated yields exactly its remap if and only if it reads back |
| Domains.CreateHosts | src/bg_coolify_migrate/api/resources.py:417-439 | the target is created with a host if and only if it is the remap of a server-bound source host that was not generated, if each rewritten part reads back |
| Handover.AlwaysHeld | src/bg_coolify_migrate/engine/steps.py:2450-2533 | inside the phases and plans of the migration, at every instant of every run under the five rules, each custom host is held by its source or its target |
| Handover.RulesAreExact | src/bg_coolify_migrate/engine/steps.py:2488-2533 | from any state such a run reaches: between check and release, and between read and delete, a change by others makes that next act lose a host if and only if its rule forbids it; a change loses a host at once if and only if the last-holder rule does, which is immediate; and a delete of the source, were it the next act in a phase after CREATE, would lose one if and only if the rule on the only target does, so a host that the target loses and regains before FINALIZE counts as lost |
| Handover.SourceHoldsItsHosts | src/bg_coolify_migrate/engine/compensations.py:145-212 | the source holds every custom host until FINALIZE begins, and again once a rollback has recorded the restore as done; with the deletion recorded as done no target is left |
| Handover.RestoredBeforeDeleted | src/bg_coolify_migrate/domain/statemachine.py:149-174 | in every run, a rollback that comes to delete targets after FINALIZE began has tried to restore the domains before |
| HandoverGaps.DropAfterCheckLosesHost | src/bg_coolify_migrate/engine/steps.py:2475-2483 | a whole run in which a drop between the check and the release leaves a host to nobody |
| HandoverGaps.DropAfterReadLosesHost | src/bg_coolify_migrate/engine/compensations.py:323-356 | a whole run in which the source loses a host between the read of an undo and the delete of its target |
| HandoverGaps.DropBeforeDeleteLosesHost | src/bg_coolify_migrate/engine/steps.py:2402-2424 | a whole run in which DELETE deletes the last holder of a host that the target lost after CREATE |
| HandoverGaps.ResumeToDeleteLosesHost | src/bg_coolify_migrate/engine/runner.py:337-362 | a whole run in which a resume after a rollback that deleted the target goes on to delete the source |
| Handover.Team.ReleaseSourceDomains | src/bg_coolify_migrate/engine/steps.py:2450-2485 | a source lets go of its custom hosts exactly when its target was read to hold them and the request was taken, and is reported when the answer arrived |
| Handover.Team.RestoreSourceDomains | src/bg_coolify_migrate/engine/compensations.py:160-212 | every source is tried, and named exactly if it could not be read, or lacked hosts and was not known to take them |
| Handover.Team.UndoCreateTarget | src/bg_coolify_migrate/engine/compensations.py:39-142 | a target is gone if the answer was not a refusal and its source names no custom host or was read to hold all of them, and is as it was otherwise; exactly those that fail the condition are named as kept, and those whose delete is not known as failed |
| Handover.Team.UndoPartialCreate | src/bg_coolify_migrate/engine/compensations.py:323-356 | targets first and then domains: what is left on both sides and which resources are reported is exactly said; with none reported no target is left and every source holds its hosts |
| EnvCopy.BuildEnvEntries | src/bg_coolify_migrate/api/resources.py:1443-1485 | the loops compute the entries, every preview entry before every production one |
| EnvCopy.EveryRowIsSent | src/bg_coolify_migrate/api/resources.py:1443-1485 | the bulk holds an entry with the row's key, kind, lock and value for every keyed row that is readable, one with its key, its own lock and the recovered value for every withheld production row that has one, and no other production entry |
| EnvCopy.OnlyNeededPreviews | src/bg_coolify_migrate/api/resources.py:1463-1521 | beside the source's own preview rows an entry is sent only for the key of a production entry: blank and locked where the source's preview row is withheld, or a locked copy of a recovered value where the source has none and Coolify would make a twin |
| EnvCopy.ProductionArrives | src/bg_coolify_migrate/api/resources.py:1443-1485 | after the whole bulk the production row of a key holds the lock of the last row of it that was sent, and the value that reads or was recovered |
| EnvCopy.OthersStay | src/bg_coolify_migrate/api/resources.py:1443-1459 | a production row of which nothing was sent is as it was |
| EnvCopy.NoSecretUnlocked | src/bg_coolify_migrate/api/resources.py:1411-1521 | at every prefix of the bulk each unlocked preview row was there before or holds a value the source itself shows under that key |
| EnvCopy.LockedPreviewStaysBlank | src/bg_coolify_migrate/api/resources.py:1488-1521 | at every prefix the preview row of a key locked on the source is what it was before or blank and locked, and the latter before any production row of that key arrives |
| Naming.Index | src/bg_coolify_migrate/domain/naming.py:315-329 | indexing succeeds if and only if every endpoint has a key and no two volumes share one; a failure names a real offender |
| Naming.ComposeVolumeSuffix | src/bg_coolify_migrate/domain/naming.py:259-275 | a suffix exists exactly after the uuid and one separator, and the name is put together from the three |
| Naming.PairByNameSuffix | src/bg_coolify_migrate/domain/naming.py:278-345 | succeeds if and only if both sides can be indexed and every source key exists on the target |
| Naming.SuffixPairsMean | src/bg_coolify_migrate/domain/naming.py:259-345 | in names: it succeeds if and only if each volume of either side is the only one named after its key and every key of the source is on the target; a pair is of two volumes named after its key |
| Naming.SuffixPairsAreOneToOne | src/bg_coolify_migrate/domain/naming.py:278-345 | each source volume is in exactly one pair and no two share a target volume |
| Naming.PairByMountPath | src/bg_coolify_migrate/domain/naming.py:352-419 | succeeds if and only if both sides can be indexed and their keys are equal |
| Naming.PathPairingSucceeds | src/bg_coolify_migrate/domain/naming.py:348-419 | in places: it succeeds if and only if each side sees one volume at a place and both see the same places, the container counting only if every endpoint names its own |
| Naming.PathPairsMean | src/bg_coolify_migrate/domain/naming.py:348-419 | a pair is of one place, and every volume of the source is in one |
| Naming.PathPairsShareTargets | src/bg_coolify_migrate/domain/naming.py:352-419 | paired by path, two source volumes share a target volume if and only if one target volume is mounted at two of the paths |
| Manifest.Inspect | src/bg_coolify_migrate/domain/manifest.py:262-297 | every bind mount of host data and every named volume is migrated, every anonymous volume refused, and each item is a mount with that payload and path decided that way; no volume or bind source is copied twice |
| Manifest.Reconcile | src/bg_coolify_migrate/domain/manifest.py:224-375 | the same over all three sources, and each declared storage that no container shows and whose volume exists is migrated; every warning is due, and every placeholder, orphan and missing authority is warned of |
| Schedules.Server.Create | src/bg_coolify_migrate/api/client.py:104-143 | at most max_retries + 1 attempts, only listed statuses are retried and none is the answer before the last attempt, the caller hears what became of that one, and every row left is of this body |
| Schedules.NoMismatchMeansSame | src/bg_coolify_migrate/domain/schedules.py:160-174 | the comparison is empty if and only if the two multisets are equal |
| Schedules.Server.CopyScheduledTasks | src/bg_coolify_migrate/api/schedules.py:108-157 | the same for scheduled tasks, whose creates are retried on every listed status |
| Schedules.Server.CopyBackupSchedules | src/bg_coolify_migrate/api/schedules.py:281-331 | the same for backup schedules, retried on 429 only: if the throttle saves nothing, no copy is ever miscounted |
| Schedules.Server.CopySchedules | src/bg_coolify_migrate/api/schedules.py:131-157 | a copy that returns has left exactly one row per body in order, whatever was committed behind an error answer; a miscount means a doubled row; none can occur when nothing retried was saved |
| Versions.EndsDecide | src/bg_coolify_migrate/domain/coolify_versions.py:131-162 | asking about the two ends of a range is asking about every release in it, for tuples of any length |
| Versions.GateMeans | src/bg_coolify_migrate/domain/coolify_versions.py:131-154 | a gate holds from its first release, included, to its last, excluded, in the order where the first number that differs decides and else the shorter is less |
| Versions.UnknownReleaseIsSafe | src/bg_coolify_migrate/domain/coolify_versions.py:320-329 | a field goes to an unknown release if and only if it is column-gated or goes to every validated release |
| Versions.VersionRoundTrip | src/bg_coolify_migrate/domain/versions.py:21-34 | a version is read back as it was written |
| Versions.ReleaseIsRead | src/bg_coolify_migrate/domain/versions.py:21-34 | and with white space around it, any number of `v` before it and a build or pre-release after it |
| Versions.OnlyReleasesAreRead | src/bg_coolify_migrate/domain/versions.py:21-34 | a text is read if and only if what is left of it is figures with single dots between them |

## Left out

- Recovery.RecoveredIsWritten: holds under a condition on each value and on the end of the file. Both are exact for a value that may meet any other followable values (RecoveryLimits.FollowableIsHarmless, RecoveryLimits.EndIsHarmless); a file that holds a value outside them may still be answered rightly, depending on its other rows.
- LockedEnvs.TrustedIsWritten: the same condition, on raw texts.
- ProtocolSafety.RestartedOncePerStop: assumes that every restart taken is recorded. ProtocolExact.RecordingIsExact shows that to be the exact condition, step by step, in disciplined runs.
- ProtocolSafety.DataIsAlwaysSafe: assumes a disciplined run. ProtocolExact.DisciplineIsExact shows that to be the exact condition, step by step.
- Executor.Saga.Start: begins at the first state; other starting states, the state callback and the notes in a result are not modelled. A rollback with nothing to undo is reported as worked, also after a CREATE whose own undo failed.
- Handover.AlwaysHeld: assumes the five rules listed under Hostnames; each is shown to be needed. A custom host added to a source after CREATE read it is not one of the hosts followed.
- Handover.Team.ReleaseSourceDomains: within one call nobody else acts; in Handover.AlwaysHeld they may act between any two acts.
- Domains.NothingPointsBack: assumes that each rewritten part reads back with its new host. Domains.ToolReadsBack says exactly when the tool's reader does, and Domains.ToolPointsBack when a list of any parts points back.
- Domains.CreateHosts: the same assumption; Domains.CreateHostsRead is without it.
- Domains.ClaimHosts: the same assumption; Domains.ClaimHostsRead is without it.
- Handover.RulesAreExact: judges a delete of the source as if it came at once; whether FINALIZE can still be reached is not part of it.
- Schedules.Server.CopySchedules: assumes that nobody else creates rows of that owner meanwhile and that the re-read is complete.
- Naming.PairByNameSuffix: the pairs are a map by key; their sorted order is not modelled.
- The volume world: one set of volumes stands for the non-anonymous volumes the source's containers mount and DISCOVER pairs; before a stop is requested the source keeps them mounted; a target that serves without pins keeps what it mounts; operators do not recreate or delete volumes. A release of pins stands for its whole settle window, by the end of which a queued stop has landed. Service-by-service restarts are in Restarts, not in the world.
- CREATE's own records of targets and restore bodies, and FINALIZE's of sources already deleted: in Protocol they are notes.
- The comparison that decides whether a source's domains differ from its restore body, and the reading of a domain conflict's holders: in Handover a request is taken or it is not.
- Two processes working on one migration at once, and records torn while another process reads.
- The facts about JSON, URLs and hosts are stated as predicates on function parameters: a backslash or `$` occurs in JSON only inside strings (section 7 of RFC 8259); a journal line is a JSON object, so no part of one parses, nor do two parts joined; the splitting of a URL into scheme, port and path, of which only the form of the scheme is assumed, and the two splits without an authority where a statement names them. A URL whose brackets do not match, for which the split raises, is not modelled.
- `_stale`, `_preview_marker`, the compose-file reader and the rules for which keys Coolify generates: they only refuse more, or enter as sets and functions.
- The service branch of the env copy and the registry filter on its fields: each drops rows or fields by one test.
- Secret redaction in the journal, schema versions newer than the reader, and the time stamps of records.
- Unicode digits and white space beyond ASCII in version texts; letters beyond ASCII that lower-case into it, and white space beyond ASCII, in host names.
- Texts with lone surrogates, which cannot be written to the journal at all.
- Whole-instance migration: it shares the generic planner in StateMachine.
- HTTP, SSH, Docker, DNS, rsync, the command line, fidelity and drift rules, images and kinds.
