# ExecMultithread record bookkeeping, modelled and proved in Dafny

`ExecMultithread` is a PHP class that starts worker scripts as background processes and
keeps one record per started worker. A record holds the file, the caller's data, the PID
printed by the shell, a status and the start date. Records sit in one of two lists:

- `pendingProcesses`: workers believed to be running;
- `completeProcesses`: workers whose process is gone, each marked `finished`.

This project models that bookkeeping as a Dafny class with the same four fields and the
bookkeeping methods. The class's methods change the fields in place. Next to it are pure
functions stating what each method computes, and lemmas proving what the class promises.

The operating system is not modelled. Each of its answers is a parameter of the call that
asks for it:

- `posix_getpgid` is a set of living PIDs, one set per poll;
- what `exec` prints is a `Pid` value, either numeric or not;
- `date` is a string;
- `file_exists` and `is_dir` are a `FileSystem` value, given as two sets of paths;
- `posix_kill` is a returned `Signal(pid, signo)` value;
- `usleep` is dropped.

Modules:

- `Records`: records, PIDs, statuses, the two-list `Ledger`, errors, signals, and the
  well-formedness invariant (pending records say `pending`, completed ones say `finished`).
- `Files`: the worker-script check and the project-root check.
- `Polling`: one poll of `checkForCompletedProcesses` as a function, with its lemmas:
  - it moves exactly the reapable records, in order, marked finished;
  - records with a non-numeric PID stay;
  - no record is lost or duplicated;
  - a second poll changes nothing.
- `Signals`: the signals `killAllProcesses` sends, with the lemmas that each numeric,
  living pending record is signalled once and in pending order.
- `Admission`: the admission wait and `startProcess` as functions, with these lemmas:
  - the admission bound;
  - the exception comes before any spawn;
  - exactly one record is appended;
  - completed records stay a prefix, and pending records keep launch order;
  - well-formedness is kept.
- `Lookup`: `getProcessesInfo`, both the listing and the lookup by PID.
- `Multithread`: the class `ExecMultithread`. Each method is proved against the functions
  above.

A wait that never ends cannot be a Dafny function. The `while (1)` admission wait is
therefore driven by a finite sequence of liveness snapshots, one per iteration. When the
snapshots run out before the pending count drops, the wait reports that it has not left,
and `startProcess` ends in `StillWaiting`: the PHP call would still be blocked at that
point.

## Model

| member | source | states |
|---|---|---|
| Records.WithStatus | src/ExecMultithread.php:140-142 | definition with no contract: the record with `status` replaced and file, data, pid and date kept; its use is described by Polling.MarkFinishedAt and Polling.EraseMarkFinished |
| Records.Reapable | src/ExecMultithread.php:139 | definition with no contract: the poll's test, a numeric PID whose process no longer exists; its properties are in Polling.RemainingMembers, Polling.ReapedMembers and Signals.KillAndPollPartition |
| Records.Probeable | src/ExecMultithread.php:118 | definition with no contract: killAllProcesses' test, a numeric PID whose process still exists; its properties are in Signals.ProbedMembers and Signals.SignalsFollowProbed |
| Files.WorkerScript | src/ExecMultithread.php:177 | definition with no contract: the worker script `file . '.php'`; used by Files.CheckFileExists |
| Polling.Poll | src/ExecMultithread.php:136-146 | definition with no contract: one run of checkForCompletedProcesses; its properties are Polling.PollLosesNothing, Polling.PollIsIdempotent, Polling.PollMovesReapable, Polling.PollKeepsWellFormed, and Multithread.ExecMultithread.CheckForCompletedProcesses is proved to compute it |
| Signals.ProbeOf | src/ExecMultithread.php:129 | definition with no contract: the call `posix_kill($pid, 0)`; see Signals.SignalsFollowProbed and Signals.SignalCount |
| Admission.WaitFor | src/ExecMultithread.php:152-162 | definition with no contract: the admission wait driven by liveness snapshots; its properties are Admission.WaitExitsBelowBound, Admission.WaitBlocksOnlyWhenFull, Admission.WaitLosesNothing, Admission.WaitKeepsCompletedPrefix, Admission.WaitKeepsPendingOrder, Admission.OrphansBlockAdmission, and Multithread.ExecMultithread.WaitForOutstandingProcessesToDropBelow is proved to compute it |
| Admission.Admit | src/ExecMultithread.php:71-73 | definition with no contract: the wait only for a positive bound; see Admission.StartUnboundedNeverWaits and Admission.StartRejectsBeforeSpawn |
| Admission.NewRecord | src/ExecMultithread.php:79-85 | definition with no contract: the appended record (file, data, spawn output, 'pending', date); see Admission.StartAppendsOne |
| Admission.Start | src/ExecMultithread.php:69-90 | definition with no contract: one startProcess call; its properties are Admission.StartAdmissionBound, Admission.StartRejectsBeforeSpawn, Admission.StartAppendsOne, Admission.StartKeepsCompletedPrefix, Admission.StartKeepsLaunchOrder, Admission.StartKeepsWellFormed, and Multithread.ExecMultithread.StartProcess is proved to compute it |
| Lookup.IndexRecordByInt | src/ExecMultithread.php:108 | definition with no contract: indexing one record by an integer key finds nothing, so `??` yields `[]`; see Lookup.InfoForPidAsWritten |
| Records.WellFormedIsDisjoint | src/ExecMultithread.php:140-143 | while pending records say 'pending' and completed ones 'finished', no record is in both lists |
| Files.CheckFileExists | src/ExecMultithread.php:175-182 | checkFleExist passes iff `file + ".php"` exists and is not a directory; otherwise it throws `ErrorException` naming the worker |
| Files.CheckProjectRoot | src/ExecMultithread.php:51-56 | the project-root check passes iff the path is a directory; otherwise it throws "The project root directory does not exist" |
| Polling.Remaining | src/ExecMultithread.php:138-145 | the records a poll leaves pending are never more than the pending records |
| Polling.Reaped | src/ExecMultithread.php:138-145 | the records a poll moves are never more than the pending records |
| Polling.MarkFinished | src/ExecMultithread.php:140-142 | marking the moved records finished keeps their number |
| Polling.MarkFinishedAt | src/ExecMultithread.php:140-142 | each moved record keeps file, data, pid and date and gets status 'finished', and keeps its position |
| Polling.Erase | src/ExecMultithread.php:140-142 | ignoring status keeps the number of records |
| Polling.PollStep | src/ExecMultithread.php:138-144 | one foreach iteration over the copy: the live entry at the current position is the visited record; a reapable one is unset there and appended, marked finished, to completed; any other stays and the position moves past it |
| Polling.PollLoopEnd | src/ExecMultithread.php:138-145 | after the last iteration, the two lists are those of one poll |
| Polling.RemainingMembers | src/ExecMultithread.php:139 | a record stays pending iff it was pending and is not reapable (numeric PID whose process no longer exists) |
| Polling.ReapedMembers | src/ExecMultithread.php:139 | a record is moved iff it was pending and is reapable |
| Polling.SplitIsPermutation | src/ExecMultithread.php:138-144 | what stays and what is moved together are the pending records, as a multiset |
| Polling.SplitErased | src/ExecMultithread.php:138-144 | the same split holds with the status field ignored |
| Polling.EraseMarkFinished | src/ExecMultithread.php:140-142 | marking finished changes nothing but the status |
| Polling.MarkFinishedAppend | src/ExecMultithread.php:140 | marking finished distributes over concatenation, so appending record by record is marking the whole batch |
| Polling.EraseAppend | src/ExecMultithread.php:140 | ignoring status distributes over concatenation |
| Polling.RemainingIsSubsequence | src/ExecMultithread.php:138-144 | the records left pending keep their relative order |
| Polling.ReapedIsSubsequence | src/ExecMultithread.php:138-142 | the records moved to completed keep their pending order |
| Polling.OrphansStay | src/ExecMultithread.php:139 | records with a non-numeric PID all stay pending, unchanged and in order |
| Polling.Orphans | src/ExecMultithread.php:139 | the records with a non-numeric PID, which the line-139 test never moves, are never more than the list; Polling.OrphansStay and Admission.OrphansBlockAdmission use them |
| Polling.RemainingIsStable | src/ExecMultithread.php:136-146 | polling what a poll left behind with the same snapshot keeps everything and moves nothing |
| Polling.PollIsIdempotent | src/ExecMultithread.php:136-146 | a second poll with the same liveness snapshot changes neither list |
| Polling.PollLosesNothing | src/ExecMultithread.php:138-144 | a poll loses and duplicates no record: with status ignored, both lists together are the same multiset before and after |
| Polling.PollMovesReapable | src/ExecMultithread.php:138-144 | the completed list keeps its old records as a prefix, and what follows is exactly the reapable pending records marked finished |
| Polling.PollCounts | src/ExecMultithread.php:138-144 | the sizes of what stays and what is moved add up to the pending count |
| Polling.PollKeepsWellFormed | src/ExecMultithread.php:138-144 | a poll keeps pending records 'pending' and completed ones 'finished' |
| Signals.Probed | src/ExecMultithread.php:117-121 | the records killAllProcesses signals are never more than the pending records |
| Signals.SignalsFor | src/ExecMultithread.php:117-121 | killAllProcesses sends at most one signal per pending record |
| Signals.SignalsFollowProbed | src/ExecMultithread.php:117-120 | one signal per probed record: the k-th signal is signal 0 to the PID of the k-th pending record that is numeric and alive |
| Signals.ProbedMembers | src/ExecMultithread.php:118 | a record is signalled iff it is pending with a numeric PID whose process still exists |
| Signals.ProbedIsSubsequence | src/ExecMultithread.php:117-121 | the signalled records keep their pending order |
| Signals.SignalCount | src/ExecMultithread.php:117-122 | a living PID receives as many signals as there are pending records carrying it; a dead one receives none |
| Signals.KillAndPollPartition | src/ExecMultithread.php:118 | with one liveness snapshot, the records signalled, the records a poll would reap and the records with a non-numeric PID together number exactly the pending records |
| Admission.ReturnValue | src/ExecMultithread.php:89 | the return value is an integer iff the spawn output is numeric, and then it is that number |
| Admission.WaitExitsBelowBound | src/ExecMultithread.php:154-158 | when the wait exits, fewer than `max` records are pending |
| Admission.WaitBlocksOnlyWhenFull | src/ExecMultithread.php:154-161 | after at least one poll, a wait that has not exited has `max` or more records pending |
| Admission.NonPositiveBoundNeverExits | src/ExecMultithread.php:71-73 | with a bound that is not positive the wait could never exit, which is why startProcess skips it |
| Admission.RoomExitsAfterOnePoll | src/ExecMultithread.php:154-158 | with room already, the wait exits after its first poll |
| Admission.OrphansBlockAdmission | src/ExecMultithread.php:152-162 | once `max` records with non-numeric PIDs are pending, no liveness snapshots let the wait exit |
| Admission.WaitLosesNothing | src/ExecMultithread.php:154-161 | the wait loses and duplicates no record |
| Admission.WaitKeepsWellFormed | src/ExecMultithread.php:154-161 | the wait keeps the status invariant |
| Admission.WaitKeepsCompletedPrefix | src/ExecMultithread.php:152-162 | a finished record stays finished: the completed records before the wait are a prefix of those after it, through every poll |
| Admission.WaitKeepsPendingOrder | src/ExecMultithread.php:152-162 | the records still pending after the wait are a subsequence of those before it: launch order is kept |
| Admission.StartAdmissionBound | src/ExecMultithread.php:71-87 | with a positive bound, a startProcess that spawns leaves at most `max` records pending |
| Admission.StartUnboundedNeverWaits | src/ExecMultithread.php:71-75 | with a bound that is not positive, startProcess never waits; it throws iff the worker check fails, and then leaves both lists alone |
| Admission.StartRejectsBeforeSpawn | src/ExecMultithread.php:71-79 | a missing or directory worker script makes startProcess throw the named `ErrorException` after the wait and before any spawn: no record is added |
| Admission.AppendThenPoll | src/ExecMultithread.php:79-87 | appending a pending record and polling adds exactly that record; it ends last in pending, or last in completed marked finished when its PID is already dead |
| Admission.StartAppendsOne | src/ExecMultithread.php:77-87 | a spawning startProcess adds exactly one record, with the given file and data, the spawn's PID, the date and status 'pending' |
| Admission.StartKeepsWellFormed | src/ExecMultithread.php:69-90 | startProcess keeps the status invariant |
| Admission.StartKeepsCompletedPrefix | src/ExecMultithread.php:69-90 | however startProcess ends, the old completed records are a prefix of the new completed list |
| Admission.AppendPollKeepsOrder | src/ExecMultithread.php:79-87 | appending the new record and polling keeps the pending list a subsequence of the old one followed by the new record |
| Admission.StartKeepsLaunchOrder | src/ExecMultithread.php:69-90 | however startProcess ends, the pending records are a subsequence of the old pending records followed by the new one: launch order is kept |
| Admission.StartPromises | src/ExecMultithread.php:69-90 | everything one startProcess call promises, together: no wait for a bound that is not positive, the admission bound, the named exception with every record kept, exactly one record added, the return value, the completed prefix, launch order and the status invariant |
| Lookup.MergedStatusMarksOrigin | src/ExecMultithread.php:98 | in the merged list of a well-formed object, a record says 'pending' iff it comes from the pending list |
| Lookup.LastMatch | src/ExecMultithread.php:100-106 | keyed by PID, the index finds the last record carrying the PID, or none when no record carries it |
| Lookup.InfoForPidAsWritten | src/ExecMultithread.php:102-108 | as written: a falsy PID gives the listing, any other integer PID gives `[]` |
| Lookup.InfoForPid | src/ExecMultithread.php:102-108 | as intended: a falsy PID gives the listing; any other gives a record iff some record carries the PID, and then it is the last such record |
| Lookup.AsWrittenMissesMatchingRecord | src/ExecMultithread.php:106-108 | one pending record with PID 123 is missed by the lookup as written and found by the intended one |
| Multithread.ExecMultithread.constructor | src/ExecMultithread.php:20-24 | stores the bound and the root unchecked; both lists start empty and well-formed |
| Multithread.ExecMultithread.Destruct | src/ExecMultithread.php:31-34 | sends the same signals as killAllProcesses |
| Multithread.ExecMultithread.SetMaxProcesses | src/ExecMultithread.php:41-44 | sets the bound; nothing else changes |
| Multithread.ExecMultithread.SetProjectRoot | src/ExecMultithread.php:51-59 | a directory becomes the root; anything else throws and leaves the root unchanged; the lists never change |
| Multithread.ExecMultithread.StartProcess | src/ExecMultithread.php:69-90 | the new lists and result are those of `Start`; with a positive bound a spawn leaves at most `max` pending; an exception names the worker and keeps every record; a spawn adds exactly the new record; the return value; the old completed records stay a prefix; the pending records keep launch order; the status invariant is kept |
| Multithread.ExecMultithread.GetProcessesInfo | src/ExecMultithread.php:96-104 | with a falsy argument: the pending records, then the completed ones, unchanged |
| Multithread.ExecMultithread.GetProcessInfo | src/ExecMultithread.php:96-109 | the lookup by PID over the merged list as written: the listing for 0, `[]` for any other integer PID |
| Multithread.ExecMultithread.KillAllProcesses | src/ExecMultithread.php:115-122 | one signal 0 for each pending record with a numeric, living PID, in pending order; per PID, one signal per record carrying it when alive, none when dead; no list changes |
| Multithread.ExecMultithread.KillProcess | src/ExecMultithread.php:127-130 | `posix_kill(pid, 0)` |
| Multithread.ExecMultithread.CheckForCompletedProcesses | src/ExecMultithread.php:136-146 | the in-place foreach with `unset` and append leaves the lists of `Poll`; the bound and root are unchanged; the status invariant is kept |
| Multithread.ExecMultithread.WaitForOutstandingProcessesToDropBelow | src/ExecMultithread.php:152-162 | the loop's polls give the result of `WaitFor`; on exit, fewer than `max` records are pending; the old completed records stay a prefix; the pending records keep their order; the status invariant is kept |

## Left out

- Spawning, liveness, signals, sleeping and the clock (`exec`, `posix_getpgid`, `posix_kill`, `usleep`, `date`) are not modelled. Their answers are parameters, and a signal is a returned value, so nothing is terminated.
- Non-termination of the admission wait: finitely many liveness snapshots drive it. A call that runs out of them ends in `StillWaiting`, not in an endless loop.
- Liveness inside one pass: a poll, `KillAllProcesses(alive)` and `Destruct(alive)` each use one snapshot for every record they visit, where the source calls `posix_getpgid` once per record (lines 118 and 139). A process that dies while the PHP loop is running is seen by the next pass only.
- Multithread.ExecMultithread.CheckForCompletedProcesses: the pending list is a sequence, so an `unset` closes the gap it leaves. PHP keeps the remaining keys with holes. Through the class's own methods only the order is observable, because `count`, `foreach` and `array_merge` ignore the keys. The fields are public, so code reading `pendingProcesses` directly sees the keys (after the first pending record is reaped, its key 0 is unset), and the model does not reproduce them.
- Pid: `is_numeric` and the `(int)` cast are folded into one `Numeric(value)` case. `exec` output with leading blanks or in exponent form, and 64-bit saturation of the cast, are not distinguished.
- Lookup.InfoForPid: the keyed lookup takes an integer argument only, and keys `Numeric(n)` records by `n`. String arguments, and PHP's folding of non-canonical numeric strings into array keys, are not modelled.
- Multithread.ExecMultithread.GetProcessInfo: the object answers as the source is written. The intended lookup, `Lookup.InfoForPid`, is the corrected half of the finding below and is not used by the object.
- `pathNormalize` is not modelled: it is a regular-expression rewrite with a recursive pattern, and it only builds the shell command.
- `convertDataToArgument`, `convertData` and `convertArgumentToData` are not modelled: they wrap `json_encode` and `base64_encode`. `convertDataToArgument` only builds the `exec` command line. `convertData` is a public static method which, with `convertArgumentToData`, is the decoding side that a worker script calls; it touches no field of the object.
- `loadPolicySecurity` is not modelled: it is an `ini_set` with a global effect and touches no field.
- Default argument values are not modelled; callers pass every argument.
- Destruction is not modelled: `Destruct` is an ordinary method, and nothing calls it automatically.
- The invariant `Valid` is kept by the class's own methods only. The PHP fields are public, so other code may break it.
- `checkFleExist` tests `$file . '.php'` relative to the process's working directory, not to `projectRoot`, although the spawn resolves the script under `projectRoot`. The model follows the code.
- `killProcess` sends signal 0, which only tests that the process exists. The model records it as written; it terminates nothing.

## Findings

| source | as written | input that shows it | evidently intended | confidence | as-written member | corrected member |
|---|---|---|---|---|---|---|
| src/ExecMultithread.php:106-108 | looks the record up by PID, then indexes that record by the PID a second time, so any nonzero integer PID yields `[]` | one pending record with PID 123, then `getProcessesInfo(123)` | return the record carrying that PID (the last one when several do), or `[]` when none does | not executed | Lookup.InfoForPidAsWritten (shown by Lookup.AsWrittenMissesMatchingRecord) | Lookup.InfoForPid |
