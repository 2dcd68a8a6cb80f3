# Verified models of the local executor

The AutoGPT local executor runs on a user's machine, takes requests from the
platform over a WebSocket, and keeps a tamper-evident audit log of what it did.
This project models the parts of it whose correctness depends on interleaving,
and the algorithms that stand for a simpler specification, and proves what they
promise. `dafny verify dfyconfig.toml` checks all of it.

| files | component |
|---|---|
| `json_values`, `json_text`, `canonical`, `json_spelling`, `ascii_text`, `key_order` | JSON values, their printed text and a parser for it, the canonical form the audit MAC covers |
| `audit_verify`, `audit_report`, `audit_cuts` | the audit verifier, what it reports, where it cuts lines |
| `audit_log`, `audit_lines`, `audit_chain`, `audit_runs`, `audit_records`, `audit_rotation`, `audit_foreign`, `audit_writer` | the writer, its rotations and its cached tail; runs of any number of writers; logs that others wrote to |
| `binding_table`, `sessions*` | the machine-control session manager: bindings, children, the per-session locks |
| `dispatch*` | request admission and its counters |
| `cancellation` | holding a cancel while a worker thread changes a file, and recording the change |
| `file_walk` | FILE_LIST under its three budgets |
| `rate_limiter` | the screenshot window, reserved first and charged afterwards |
| `text_lines`, `follow` | following the log across rotations |
| `browse_session`, `directory_browser` | directory references, page cursors, the open browses |
| `mcp_client` | the JSON-RPC request table of the computer-use driver |
| `review` | reviewing a recording |
| `json_lines` | the local model's streamed lines |
| `nesting` | the depth check on inbound frames |

How the models are read:

- Concurrent code is a step system. A step runs from one `await` (or one system
  call) to the next, an event that cannot happen changes nothing, and a theorem
  about runs quantifies over every list of events. Objects that update their
  fields are classes; their methods are proved against the step functions or
  against functions of the old state.
- The MAC is any function that is injective and returns ASCII text (`SoundMac`),
  standing for HMAC (section 2 of RFC 2104). `json.loads` is any reader that
  returns dicts with distinct keys (`SoundLoads`) and reads back a record that was
  dumped (`Faithful`); `AuditChain.SoundCodecExists` shows that such a pair exists.
- A float is identified with its `repr`, which is taken to be injective. It has the
  forms `repr` gives, and so never looks like an int; which digits `repr` chooses is
  not modelled, so `Faithful` asks the same of every text of these forms. File contents are sequences of characters without lone
  surrogates: `_utf8_safe` has run.
- An inode is never used twice, one append reaches the file whole or not at all,
  and a stopped file change is not undone. The clock is either a parameter or an
  oracle that says "timed out", "idle" or "too old".

Where the code differs from what is said about it, or from what one would expect:

- `_canonicalize` calls its output ASCII-safe; strings are dumped with
  `ensure_ascii=False` (audit.py:83, 101). `CanonicalAsciiIff` says exactly when
  the text is ASCII, `CanonicalNotAscii` shows one that is not.
- Keys are sorted by code point, not by UTF-16 code unit as section 3.2.3 of
  RFC 8785 asks, as the code itself says (audit.py:105-108): `SortedAlikeIff` says
  for which objects the two orders agree, `KeysCross` is a pair they put differently.
- The protocol document (docs/PROTOCOL.md:1220-1225) promises a STATUS after any request that took the last
  free slot. A request that ends there without a response sends none:
  `StatusAtTheEdge` is exact and `EdgeWithoutStatus` a run.
- A child being detached for idleness goes on reporting its free slots and refuses
  every frame: `CapacityIsExact` says exactly when the report is right, and
  `DetachingReportsFreeSlots` is a run.
- `_run_to_completion` is meant to release every cancel it held. Two cancels that
  arrive before the coroutine can resume are counted twice and thrown once, so one
  stays counted: `CancelsReleased` gives the exact condition and
  `CoalescedCancelStaysCounted` a run.
- `_finish_then_cancel` keeps a change from having no record, but a change that
  ended in a jail error or an unexpected exception is not recorded through it:
  `ChangeThatRanIsRecorded` says exactly which changes are, and
  `ChangeWithoutRecord` is a run.
- An activate or restore that fails is rolled back; one that is cancelled is not,
  since `except Exception` does not catch the cancellation: `CancelUndoesNothing`
  says so of every cancel, `CancelledRestoreStaysBound` is a run,
  `CancelledStaysInOrder` what still holds.
- A reply whose id is JSON `true` answers request 1, because a bool is an int to
  Python: `TrueAnswersTheFirst` is a run, and `NamesItself` beside it says that no
  other id than its number does, and `RepliesKeepApart` that a reply touches no
  request but the one named, and none that has ended.
- For the same reason the verifier takes `"seq": true` for 1: `SeqTrueIsClean` is a
  clean file with such a record, `BoolSeqIsFirst` says that no other bool and no
  later record passes.
- The verifier cuts lines at a lone CR too, while the tail reader cuts only at
  LF: `CutsAgreeIff` is exact and `CutsDiffer` such a file. `RenderedLines` and
  `LfRendered` show that both find the same records in every file the writer made.
- The follower can miss a log that was created and renamed away between two of its
  looks: `NothingMissedIff` gives the exact condition and `MissesALog` a run.

## Model

| member | source | states |
|---|---|---|
| JsonText.PrintParses | autogpt_local_executor/audit.py:82-115 | parsing the printed text of any finite value, followed by any delimiter, gives the value and leaves exactly the rest |
| Canonical.SortSorted | autogpt_local_executor/audit.py:109 | sorting members by key is strictly ordered and keeps exactly the same members |
| Canonical.CanonicalIsPrinted | autogpt_local_executor/audit.py:82-115 | the canonical text is the plain printed text of the value with every object's keys in order, and there is none exactly if a NaN or an infinity is inside |
| Canonical.CanonicalInjective | autogpt_local_executor/audit.py:59-138 | two values have equal canonical text if and only if they are the same with objects as unordered maps |
| Canonical.CanonicalFails | autogpt_local_executor/audit.py:59-79 | canonicalizing raises exactly on values that hold a NaN or an infinity |
| JsonSpelling.EscapesAsJson | autogpt_local_executor/audit.py:98-101 | quotes, backslashes and line ends as json.dumps writes them |
| JsonSpelling.EscapesControls | autogpt_local_executor/audit.py:98-101 | control characters likewise |
| JsonSpelling.LeavesTheRest | autogpt_local_executor/audit.py:98-101 | characters outside ASCII, and DEL, are written as they are |
| JsonSpelling.DumpsWithSpaces | autogpt_local_executor/audit.py:296 | a record's line has a space after each comma and colon |
| JsonSpelling.CanonicalWithout | autogpt_local_executor/audit.py:102-114 | the canonical form has none, and its keys in order |
| AsciiText.CanonicalAsciiIff | autogpt_local_executor/audit.py:82-115 | the canonical text is ASCII if and only if every string and key in the value is |
| AsciiText.CanonicalNotAscii | autogpt_local_executor/audit.py:98-101 | one letter that is not ASCII is printed as it is |
| KeyOrder.SortedAlikeIff | autogpt_local_executor/audit.py:105-109 | the canonical order of an object's keys is UTF-16 order if and only if no two keys first differ in a character above U+FFFF on one side and one from U+E000 to U+FFFF on the other |
| KeyOrder.KeysCross | autogpt_local_executor/audit.py:105-109 | an object whose two keys the orders put differently |
| AuditVerify.CheckRecord | autogpt_local_executor/audit.py:485-544 | one line's violations, in order, and whether checking stops at it |
| AuditVerify.ScanLines | autogpt_local_executor/audit.py:482-545 | the loop over the lines reports what judging each non-blank line after the one before it gives |
| AuditVerify.VerifyRecords | autogpt_local_executor/audit.py:465-545 | reports the violations of the file, and none exactly if the file is clean |
| AuditVerify.CleanIffNoViolations | autogpt_local_executor/audit.py:465-545 | no violations if and only if the data is empty or newline-ended and its non-blank lines are one correctly numbered, linked and MACed chain from seq 1 |
| AuditVerify.SharedPrefix | autogpt_local_executor/audit.py:509-544 | in two chains equal hmacs stand at the same place and everything up to there is the same record |
| AuditVerify.LastHmacFixesFile | autogpt_local_executor/audit.py:465-545 | two clean files whose last records carry one hmac hold the same whole record sequence |
| AuditReports.FileReportIsExact | autogpt_local_executor/audit.py:465-545 | a file's report is that it is cut short, if it is, and then line by line, up to the first that stops the reading, exactly what is wrong with it: a gap against the number of the line before, a break against its hmac, a wrong MAC, a missing field or no record at all |
| AuditReports.DeletionIsTold | autogpt_local_executor/audit.py:505-544 | a record taken out of a chain, other than the last, is reported as one gap and one break, at the record after it, and nothing else is |
| AuditReports.TailIsLastFilled | autogpt_local_executor/audit.py:370-387 | of any file the tail reader takes the last filled line: its number plus one (1 without a seq) and its hmac, if it has one; a line that is no record is an error |
| AuditChain.SeqTrueIsClean | autogpt_local_executor/audit.py:497-508 | for any codec, a file whose record has `"seq": true` and verifies clean |
| AuditChain.BoolSeqIsFirst | autogpt_local_executor/audit.py:497-508 | in a clean file only the first record can have a bool for its seq, and only `true` |
| AuditForeign.OpensExactly | autogpt_local_executor/audit.py:167-217 | on any log, whoever wrote it, a writer is refused exactly if the log is not clean, its tail cannot be read, or it is missing and cannot be created; otherwise it starts from the file's tail |
| AuditForeign.UnreadableIsRefused | autogpt_local_executor/audit.py:258-263 | a writer that finds another file at the path whose tail cannot be read writes nothing |
| AuditForeign.ChainsOntoTheFile | autogpt_local_executor/audit.py:258-298 | a record goes to the end of the file at the path, numbered and linked to the tail that file has |
| AuditLines.RenderedLines | autogpt_local_executor/audit.py:296-312 | the verifier's lines of a file of dumped records are exactly those records |
| AuditLines.LfRendered | autogpt_local_executor/audit.py:375-379 | so are the tail reader's lines, newline kept |
| AuditCuts.CutsAgreeIff | autogpt_local_executor/audit.py:377-482 | the verifier and the tail reader cut a file into the same lines, line ends aside, if and only if no CR in it stands alone |
| AuditCuts.CutsDiffer | autogpt_local_executor/audit.py:482 | a file that is one line to the tail reader and two to the verifier |
| AuditLines.ReadLineFaithful | autogpt_local_executor/audit.py:486 | a reader that meets the assumptions on json.loads exists |
| AuditChain.SoundCodecExists | autogpt_local_executor/audit.py:294 | everything assumed of json.loads and the MAC holds of some pair of functions |
| AuditChain.SealExtends | autogpt_local_executor/audit.py:271-298 | a record sealed with a chain's tail extends the chain by one, and gives its new tail |
| AuditChain.ChainFile | autogpt_local_executor/audit.py:370-387 | a chain's file verifies clean and the tail reader finds the chain's own tail in it |
| AuditChain.RotateKeeps | autogpt_local_executor/audit.py:347-365 | a rotation, failing at the rename, at the re-create or not at all, keeps every chain and leaves the writer with the tail of what is at the path |
| AuditRuns.RunKeeps | autogpt_local_executor/audit.py:251-387 | over every run of writes, rotations and restarts by any writers, every file holds one chain and every writer agrees with the disk |
| AuditRuns.NothingLostOrForked | autogpt_local_executor/audit.py:251-387 | after any run every file verifies clean, and the files in order of creation hold exactly the records written, each once, in order |
| AuditRecords.RecordsAreEntries | autogpt_local_executor/audit.py:271-298 | after any run the files in order hold one record for each write that had to go through, in order, and looked up by key each holds its entry's ts, ids, version, op, details and result |
| AuditRecords.WritersAreOpen | autogpt_local_executor/audit.py:167-217 | the writers there are, are those of the starts that found the log or could create it |
| AuditRuns.EveryFileHasOneName | autogpt_local_executor/audit.py:347-365 | after any run each file is the log or has exactly one rotated name: no rotation overwrites another's |
| AuditRotation.RotatesWhenDue | autogpt_local_executor/audit.py:316-356 | in any run an event renames the log away exactly if it is at 64 MiB, or has content and is too old, or is asked to be rotated and has content, and the rename does not fail; and then to the first free name of its second |
| AuditRotation.GrowsOnlyBelowLimit | autogpt_local_executor/audit.py:316-334 | in any run a file that has reached 64 MiB takes another record only where renaming it failed |
| AuditRuns.CacheIsTrue | autogpt_local_executor/audit.py:260-263 | a writer whose cached identity still matches holds the tail of the file at the path |
| AuditRuns.WritesGoThrough | autogpt_local_executor/audit.py:251-298 | after any run a write fails exactly if its append does or the entry holds a NaN or an infinity |
| AuditRuns.RestartsGoThrough | autogpt_local_executor/audit.py:167-217 | after any run a restart is refused exactly if the log is missing and cannot be created |
| AuditWriters.LogFolder.CreateEmptyFile | autogpt_local_executor/audit.py:808-813 | the path names a new, empty file; older files stay |
| AuditWriters.AuditWriter.OpenLog | autogpt_local_executor/audit.py:167-217 | opening verifies the log, reads its tail and creates it if missing, and is refused exactly where the specification is |
| AuditWriters.AuditWriter.LoadTailState | autogpt_local_executor/audit.py:370-387 | the tail of the file at the path, as its last filled line says |
| AuditWriters.AuditWriter.WriteRecord | autogpt_local_executor/audit.py:251-269 | leaves the folder and the writer as one locked write of the run model does |
| AuditWriters.AuditWriter.AppendOne | autogpt_local_executor/audit.py:271-312 | seals and appends one record, or changes nothing but a file the open may have created |
| AuditWriters.AuditWriter.RotateIfDue | autogpt_local_executor/audit.py:316-334 | rotates exactly for size, or for age on a log that is not empty |
| AuditWriters.AuditWriter.ForceRotation | autogpt_local_executor/audit.py:336-345 | rotates any log that is not empty |
| AuditWriters.AuditWriter.RotateLog | autogpt_local_executor/audit.py:347-365 | takes the first free name, moves the log there and starts a new one, stopping where the weather says |
| BindingTables.BindingTable.RememberBinding | autogpt_local_executor/daemon.py:1905-1915 | the loop leaves the table of the specification and raises exactly if that has none |
| BindingTables.RememberKeeps | autogpt_local_executor/daemon.py:1905-1915 | with at most 8 live children it never raises, keeps at most 64 bindings, keeps the new one and every live session's, and drops others only whole |
| BindingTables.RememberIs | autogpt_local_executor/daemon.py:1905-1915 | the new binding goes last, the others keep their order, and of 64 others the oldest whose session has no live child makes room |
| BindingTables.RememberKeepsOrPushesOut | autogpt_local_executor/daemon.py:1905-1915 | remembering one session leaves another bound as it was, or takes its place in a table of 64 where it has no live child |
| SessionsRuns.RunKeeps | autogpt_local_executor/daemon.py:1627-1968 | the session manager's invariant holds after every run of its steps |
| SessionsTheorems.LimitsHold | autogpt_local_executor/daemon.py:1905-1951 | in every reachable state at most 8 children are alive, one being stopped included, at most 64 bindings remain after each insertion, and remembering never raises or evicts the new or a live binding |
| SessionsTheorems.LiveChildRunsOnItsBinding | autogpt_local_executor/daemon.py:1917-1968 | a live child, or one being stopped, runs on its session's binding if the session has one |
| SessionsTheorems.LocksExclude | autogpt_local_executor/daemon.py:1891-1903 | handlers of one session exclude each other, and the lock map has an entry, with the right count, exactly while someone uses it |
| SessionsRollback.FoundWhenBinding | autogpt_local_executor/daemon.py:1733-1819 | what a handler would put back is what its session was bound to once its grant had been verified |
| SessionsRollback.FailuresRollBack | autogpt_local_executor/daemon.py:1750-1866 | a start or an audit that raises leads, straight or by way of stopping the child it started, to a step that leaves the session on exactly the binding that was found; only a cancel ends it earlier |
| SessionsRollback.FailureRestores | autogpt_local_executor/daemon.py:1698-1866 | at one step a failed activate or restore put back exactly the binding it found; since then the session has it, unless another session took its place in a full table, and no live child runs on any other |
| SessionsRollback.CancelledStaysInOrder | autogpt_local_executor/daemon.py:1736-1757 | a cancelled handler leaves a binding no older than the session was last released with, and a live child only on it |
| SessionsRollback.CancelledRestoreStaysBound | autogpt_local_executor/daemon.py:1827-1866 | a run in which a cancelled restore is not undone |
| SessionsTheorems.NoLiveChildIsLost | autogpt_local_executor/daemon.py:1953-1968 | no finished callback or other step loses a live child: each is the one its session has or the one being stopped |
| SessionsChildren.RunsUntilEnded | autogpt_local_executor/daemon.py:1917-1968 | a child that runs goes on running as its session's until it ends by itself or a handler of that session begins to stop it |
| SessionsChildren.AuditedChildRuns | autogpt_local_executor/daemon.py:1736-1757 | over any run an activate or restore that has come to its audit has a child on the binding it audits, started by itself there or found running, alive to this moment unless it has ended by itself |
| SessionsProgress.BoundWhileAudited | autogpt_local_executor/daemon.py:1733-1757 | and its session has that binding, unless another session took its place in a full table |
| SessionsProgress.EndsPlainlyIff | autogpt_local_executor/daemon.py:1627-1888 | a handler ends with nothing to undo exactly where it is turned away (unavailable, active already, unbound, another revision, a stale or wrong grant, an error) or has done what was asked |
| SessionsProgress.CompletedIsDone | autogpt_local_executor/daemon.py:1627-1888 | then an attach has bound its session, an activate or restore has its binding and no child on another, a detach has left neither, a reap no child |
| SessionsProgress.AttachesWhatWasIssued | autogpt_local_executor/daemon.py:1648-1686 | what an attach binds is the root resolved for it with the fingerprint and grant issued, one revision on from what its session had |
| SessionsUndisturbed.UndisturbedAttach | autogpt_local_executor/daemon.py:1627-1690 | from any reachable state an attach nothing gets in the way of ends with its session bound so |
| SessionsUndisturbed.UndisturbedActivate | autogpt_local_executor/daemon.py:1692-1767 | an activate, with a child on the session's binding, the one it had or a new one |
| SessionsUndisturbed.UndisturbedRestore | autogpt_local_executor/daemon.py:1769-1866 | a restore, with the claimed binding and a child on it; a child on another binding is gone |
| SessionsUndisturbed.UndisturbedRollBack | autogpt_local_executor/daemon.py:1840-1858 | a restore that replaced a child and could not be audited, with the prior binding and a child on it |
| SessionsUndisturbed.UndisturbedDetach | autogpt_local_executor/daemon.py:1868-1888 | a detach, with neither binding nor child |
| SessionsUndisturbed.UndisturbedReap | autogpt_local_executor/daemon.py:1279-1308 | a reap, with the child gone and the binding kept |
| SessionsUndisturbed.EndedChildLeaves | autogpt_local_executor/daemon.py:1953-1958 | a child that ends is forgotten by its callback, and nothing else changes |
| SessionsRequests.ServesItsRequest | autogpt_local_executor/daemon.py:1627-1888 | over any run a handler stands where the request it came with leads: an activate works on a binding of the revision it names, a restore on the binding its grant claims, a reap on the child it was told of |
| SessionsRequests.ActivatesWhatItNames | autogpt_local_executor/daemon.py:1711-1757 | an activate verifies, starts and audits only a binding of the revision it names |
| SessionsRequests.ReaperStopsTheChosen | autogpt_local_executor/daemon.py:1282-1308 | the child that is stopped as idle is the one the reaper chose, by its id, whatever ran while the lock and the audit were awaited |
| SessionsTheorems.RevisionsNeverGoBack | autogpt_local_executor/daemon.py:1633-1888 | while a session stays bound, the binding it has when its lock is free never goes back in revision, and equal revisions have equal fingerprints |
| SessionsUndisturbed.CancelledWaiterLeaves | autogpt_local_executor/daemon.py:1891-1903 | a handler cancelled while it waits for its lock leaves no trace; the lock stays while others use it |
| Dispatch.Dispatcher.OnFrame | autogpt_local_executor/daemon.py:1124-1149 | admits exactly what the step system admits, and counts it |
| Dispatch.Dispatcher.FinishDispatch | autogpt_local_executor/daemon.py:1367-1417 | gives back what the request took, only in its own generation, and says whether a STATUS follows its response |
| Dispatch.Dispatcher.ClearCounters | autogpt_local_executor/daemon.py:722-737 | ends a drain: a new generation with counters at zero |
| Dispatch.Dispatcher.Capacity | autogpt_local_executor/daemon.py:1442-1448 | the capacity of the step system's state |
| DispatchTheorems.CountersAreTrue | autogpt_local_executor/daemon.py:1086-1152 | at every suspension point pending is queued plus in flight, within the limit, and each counter counts the requests it stands for |
| DispatchTheorems.NeverBlocks | autogpt_local_executor/daemon.py:1353-1359 | no admitted request ever waits on the session's semaphore |
| DispatchTheorems.SettlesExactly | autogpt_local_executor/daemon.py:1353-1393 | a counted request that ends takes exactly one off, so the zero floor never fires; one let go changes no counter of a later session |
| DispatchTheorems.GenerationNeverGoesBack | autogpt_local_executor/daemon.py:733 | generations never decrease over a run |
| DispatchTheorems.CapacityIsExact | autogpt_local_executor/daemon.py:1442-1448 | how many of any next frames are admitted: as many as reported while the session reads and is not being detached, none otherwise; so the report is exact if and only if it reads or reports none free |
| DispatchTheorems.DetachingReportsFreeSlots | autogpt_local_executor/daemon.py:1124-1135 | a run in which two slots are reported free and no frame is admitted |
| DispatchTheorems.StatusAtTheEdge | autogpt_local_executor/daemon.py:1367-1417 | a finish leaves a STATUS due exactly if it has a response and takes capacity from none to one |
| DispatchTheorems.StatusFollowsItsEdge | autogpt_local_executor/daemon.py:1395-1417 | over any run, a response being sent has a STATUS after it exactly if its own finish was at that edge |
| DispatchTheorems.EdgeWithoutStatus | autogpt_local_executor/daemon.py:1395-1396 | a run in which the edge is reached without a response and no STATUS is sent |
| DispatchTheorems.DetachedChildIsIdle | autogpt_local_executor/daemon.py:1279-1318 | a child the reaper has chosen has no task left, waiting, running or answering, and admits none, until it is stopped or spared; a request not over by then was let go by an earlier drain |
| DispatchTheorems.SparedAdmitsAgain | autogpt_local_executor/daemon.py:1301-1307 | a child that was spared admits frames again |
| DispatchTheorems.UndisturbedRequest | autogpt_local_executor/daemon.py:1146-1417 | an admitted request runs, is answered and gives back all it took, with a STATUS exactly if it had taken the last slot |
| DispatchTheorems.DrainLetsGo | autogpt_local_executor/daemon.py:712-737 | a drain leaves nothing counted and a new generation; requests that waited never run, those handled count no more |
| Cancellation.ExitMatchesWork | autogpt_local_executor/handlers.py:309-353 | for any timing of cancels, the exit is the change's own outcome if it ran, cancellation if it never started, and never while it runs |
| Cancellation.ExitsIff | autogpt_local_executor/handlers.py:325-353 | it exits exactly if a thread took the job, it ended after that, and the coroutine resumed after that, however many cancels came |
| Cancellation.OutcomeIsTheThreads | autogpt_local_executor/handlers.py:325-334 | the outcome is what the thread said when it first ended after taking the job |
| Cancellation.CancelsReleased | autogpt_local_executor/handlers.py:330-353 | it releases exactly the cancels thrown into it; after a change that ran the count is back where it was if and only if between any two cancels before its exit the coroutine resumed |
| Cancellation.RunsIffPickedUpFirst | autogpt_local_executor/handlers.py:323-343 | a change runs if and only if a thread picked its job up before any cancel was thrown in; one picked up later never starts |
| Cancellation.CoalescedCancelStaysCounted | autogpt_local_executor/handlers.py:336-353 | a run in which one cancel stays counted |
| Cancellation.LeavesWrittenThenCancels | autogpt_local_executor/handlers.py:356-381 | leaves only once the write is over, and then goes on with a cancellation exactly if one came before that |
| Cancellation.LeavesIff | autogpt_local_executor/handlers.py:367-381 | it leaves exactly if the write was over and the coroutine resumed after that |
| Cancellation.ChangeThatRanIsRecorded | autogpt_local_executor/handlers.py:967-996 | a handler ends only when its change is over; by then the audit write of a change that succeeded or failed with OSError was started once and driven to its end, and no other change has one |
| Cancellation.HandlerEndsIff | autogpt_local_executor/handlers.py:967-996 | a handler ends exactly if its change ended and it resumed and, where a record is due, the write was over and it resumed after that; it goes on with a cancellation exactly if the change never started or a cancel came during that write |
| Cancellation.NotBefore | autogpt_local_executor/handlers.py:967-996 | before that it is still changing the file |
| Cancellation.UndisturbedIsAnswered | autogpt_local_executor/handlers.py:967-996 | without cancels the change is recorded and answered |
| Cancellation.ChangeWithoutRecord | autogpt_local_executor/handlers.py:974-976 | a run that ends with a change and no audit write driven for it |
| FileWalk.ScanFolder | autogpt_local_executor/handlers.py:1158-1173 | one folder's entries move the reply on as the specification says, and collect the subfolders to enter |
| FileWalk.Walk | autogpt_local_executor/handlers.py:1126-1230 | the explicit-stack walk terminates with the reply of the recursive order |
| FileWalk.PushedEvents | autogpt_local_executor/handlers.py:1180 | pushing subfolders in reverse leaves them to be walked in order, before what was already stacked |
| FileWalk.ReplyIsCutWhereFull | autogpt_local_executor/handlers.py:1182-1230 | the reply is all that belongs before the first event with no room, and an error if the base cannot be read |
| FileWalk.ListingKeepsBudgets | autogpt_local_executor/handlers.py:1182-1230 | every listing is a prefix of the matching entries and keeps the entry, byte and scan budgets |
| FileWalk.UntruncatedIffWhole | autogpt_local_executor/handlers.py:1182-1230 | truncated is false exactly if everything fits and every folder was read; then the listing is every entry that matches and could be stat'ed |
| FileWalk.HiddenFoldersAreNotEntered | autogpt_local_executor/handlers.py:1162-1173 | without hidden entries a candidate is hidden by its own name or not at all |
| FileWalk.VisitsExactlyTheReachable | autogpt_local_executor/handlers.py:1145-1180 | the walk yields an entry if and only if a path of entered, readable folders leads to it |
| FileWalk.ListsOnlyWhatBelongs | autogpt_local_executor/handlers.py:1182-1230 | whatever is listed is an entry of the tree, reached by way of folders the request may enter, not hidden unless asked for, that matches, can be sent and was there |
| FileWalk.ListsAllThatBelong | autogpt_local_executor/handlers.py:1182-1230 | and a listing not marked truncated has every such entry |
| RateLimiter.SlidingWindow.DropPast | autogpt_local_executor/handlers.py:151-154 | what is kept is exactly the accepted events of the window that ends now |
| RateLimiter.SlidingWindow.Allow | autogpt_local_executor/handlers.py:150-158 | accepts if and only if fewer than the limit were accepted in the window that ends now |
| RateLimiter.SlidingWindow.Available | autogpt_local_executor/handlers.py:160-165 | how many more the window takes, taking none |
| RateLimiter.NoWindowOverflows | autogpt_local_executor/handlers.py:144-165 | over any run with a rising clock no half-open window of the configured length holds more accepted events than the limit |
| RateLimiter.LimiterNeverOverflows | autogpt_local_executor/handlers.py:144-165 | the same of a limiter's own history |
| RateLimiter.ChargeOne | autogpt_local_executor/handlers.py:1742-1744 | a charge made while there was room for it earlier is not refused |
| RateLimiter.Charge | autogpt_local_executor/handlers.py:1742-1744 | every image sent is charged, each charge accepted |
| RateLimiter.Collect | autogpt_local_executor/handlers.py:1687-1706 | keeps every text and the first images there is room for, in order; images received are kept plus withheld |
| RateLimiter.CarriedAre | autogpt_local_executor/handlers.py:1687-1702 | what is kept is each text and each image before which fewer were seen than there was room for, unchanged and in the order they came |
| RateLimiter.SizeAdds | autogpt_local_executor/handlers.py:1714-1717 | sizes add up: a text's is its length as JSON carries it, an image's that of its data |
| RateLimiter.FittingFits | autogpt_local_executor/handlers.py:1714-1741 | all is sent exactly if it fits, no image otherwise, and what is sent fits unless the first text had to be cut |
| RateLimiter.CutToFit | autogpt_local_executor/handlers.py:1707-1741 | the blocks sent are all that fit, else the texts, else the first text cut; the notes say what was dropped, and none means nothing was |
| RateLimiter.ResultPayload | autogpt_local_executor/handlers.py:1673-1763 | images received equal images sent plus withheld, exactly the images sent are charged, none refused; the notes say how many blocks, and images for rate and for size, were left out, and whether texts were cut |
| TextLines.SplitIsExact | autogpt_local_executor/cli.py:588-593 | text is cut into newline-ended lines and a tail without a newline, and nothing is lost |
| Follow.TellsInOrder | autogpt_local_executor/cli.py:573-614 | at every moment of every run the output is the lines of the files left behind, whole and in order, and those read of the open one |
| Follow.LeftFilesAreFinal | autogpt_local_executor/cli.py:581-612 | a file the follower has left is never written to again |
| Follow.NothingMissedIff | autogpt_local_executor/cli.py:573-660 | once caught up, the output is the lines of all files if and only if each log with anything in it was the one open in the follower when it was renamed away |
| Follow.MissesALog | autogpt_local_executor/cli.py:573-660 | a run in which a record is lost |
| Follow.NothingMissed | autogpt_local_executor/cli.py:573-660 | a follower that notices each rotation before the next misses nothing |
| Follow.AppendedIsTold | autogpt_local_executor/cli.py:573-614 | what is written to the log at the path is put out, as the end of that file, by a follower left alone |
| Follow.CatchesUp | autogpt_local_executor/cli.py:573-614 | left alone with the log in place, it comes to the end of the newest file |
| BrowseSessions.SortSorts | autogpt_local_executor/directory_browser.py:266 | candidates are ordered by rank, none lost or added |
| BrowseSessions.CandidatesAre | autogpt_local_executor/directory_browser.py:244-266 | the candidates are the first 1000 entries' folders that can be browsed, and nothing else, by rank |
| BrowseSessions.BrowseSession.AddRef | autogpt_local_executor/directory_browser.py:415-424 | the reference minted before for that folder and parent, or a fresh one; tables stay mutual inverses |
| BrowseSessions.BrowseSession.AddCursor | autogpt_local_executor/directory_browser.py:291-307 | the page's cursor is the newest, reused if it exists, the others in their order; only the oldest is dropped, when 32 are held |
| BrowseSessions.BrowseSession.UseCursor | autogpt_local_executor/directory_browser.py:139-147 | the cursor's offset, if it exists and belongs to the folder; then it is the newest and the others keep their order, else nothing moves |
| BrowseSessions.BrowseSession.ListChildren | autogpt_local_executor/directory_browser.py:237-288 | the page is the slice of the sorted candidates at the offset, each with its reference; it stops short only at a child that has none, once 1200 are held, and is marked truncated exactly then or when the scan was cut |
| BrowseSessions.SamePage | autogpt_local_executor/directory_browser.py:272-288 | the same slice of the same folder, listed from two tables of which the second grew from the first, is the same page with the same references |
| BrowseSessions.BrowseSession.Turn | autogpt_local_executor/directory_browser.py:130-164 | answers exactly the known references and cursors, and its next cursor stands for the next page |
| BrowseSessions.ChainsEndAtRoots | autogpt_local_executor/directory_browser.py:415-424 | every chain of parents is of live references, repeats none and ends at a root |
| DirectoryBrowsers.DirectoryBrowser.EvictExpired | autogpt_local_executor/directory_browser.py:231-235 | exactly the expired browses go, the others keep their order |
| DirectoryBrowsers.DirectoryBrowser.GetSession | autogpt_local_executor/directory_browser.py:221-229 | finds the browse exactly if it is open and not expired |
| DirectoryBrowsers.DirectoryBrowser.Start | autogpt_local_executor/directory_browser.py:195-219 | a new browse with a reference for each root, the oldest of 8 making room |
| DirectoryBrowsers.DirectoryBrowser.ListDirectories | autogpt_local_executor/directory_browser.py:110-173 | invalid exactly for mismatched arguments, a dead browse, or an unknown reference or cursor; a new browse of the roots without a browse id; otherwise the page asked for, the browse now the most recently used; no other browse is touched |
| DirectoryBrowsers.DirectoryBrowser.Resolve | autogpt_local_executor/directory_browser.py:175-184 | the folder a live reference stands for |
| DirectoryBrowsers.DirectoryBrowser.Consume | autogpt_local_executor/directory_browser.py:192-193 | that browse is gone and every other stays |
| DirectoryBrowsers.SortDistinct | autogpt_local_executor/directory_browser.py:266 | sorting folders with distinct paths leaves them distinct |
| DirectoryBrowsers.FollowPages | autogpt_local_executor/directory_browser.py:110-173 | following next_cursor ends within five pages; the pages together are a prefix of the sorted candidates, repeat none if the folder has none twice, and are all of them if no page is marked truncated |
| DirectoryBrowsers.ListTwice | autogpt_local_executor/directory_browser.py:110-173 | whatever is listed in between, listing an unchanged folder's page again gives the same entries with the same references and the same truncation; and whatever became of the disk, a child on both pages has one reference |
| McpClient.PendingIsUnfinished | autogpt_local_executor/computer_use/mcp_client.py:187-211 | exactly the requests that have not ended are pending, and what one returns or raises is what its own future was given |
| McpClient.ResolvesOnce | autogpt_local_executor/computer_use/mcp_client.py:305-329 | what a request's future holds first it holds for good |
| McpClient.OnlyItsOwnReply | autogpt_local_executor/computer_use/mcp_client.py:305-329 | a request the driver resolved was handed a result by a reply that names it and has that result, or an error by one that has that error, read while it waits (section 5 of the JSON-RPC 2.0 specification) |
| McpClient.AnsweredIff | autogpt_local_executor/computer_use/mcp_client.py:305-329 | a request has a result, or an error of the driver's, exactly if a reply that names it said so while it waited |
| McpClient.FutureMoves | autogpt_local_executor/computer_use/mcp_client.py:305-373 | a waiting request is moved by the reply that names it, to its result or error, by the driver going, to the first reason for that, by giving up, and by nothing else |
| McpClient.EndsByItsOwnReply | autogpt_local_executor/computer_use/mcp_client.py:203-211 | so a request returns only what a reply to it has as its result, and raises an error of the driver's only as a reply to it has it |
| McpClient.CallMoves | autogpt_local_executor/computer_use/mcp_client.py:203-211 | a request waits once it is sent, ends with what its future holds, and tells the driver when it gives up; it moves so whenever it can and in no other way |
| McpClient.AnsweredRequestEnds | autogpt_local_executor/computer_use/mcp_client.py:187-211 | from any state with the driver there, a request that is sent and answered returns the result or raises the error |
| McpClient.TrueAnswersTheFirst | autogpt_local_executor/computer_use/mcp_client.py:314 | a run in which `true` answers request 1 |
| McpClient.NoneWaitsAfter | autogpt_local_executor/computer_use/mcp_client.py:363-373 | once pending requests were failed none is unresolved and no later one can start to wait |
| McpClient.FirstReasonStays | autogpt_local_executor/computer_use/mcp_client.py:355-373 | the first reason for which the driver was taken for gone is kept, and is what every request failed for it raises |
| McpClient.ReaderStopsIff | autogpt_local_executor/computer_use/mcp_client.py:278-329 | replies are read until the driver is gone or one to a waiting request has an error that cannot be read |
| McpClient.StdioMcpClient.BeginRequest | autogpt_local_executor/computer_use/mcp_client.py:194-199 | a fresh id is registered, unless the client is closed |
| McpClient.StdioMcpClient.AfterSend | autogpt_local_executor/computer_use/mcp_client.py:203-211 | a failed send ends the request and removes its id |
| McpClient.StdioMcpClient.AfterWait | autogpt_local_executor/computer_use/mcp_client.py:205-211 | a request ends with what its future holds, and its id is no longer pending |
| McpClient.StdioMcpClient.AbandonWait | autogpt_local_executor/computer_use/mcp_client.py:206-209 | giving up cancels the future and keeps the id until the driver was told |
| McpClient.StdioMcpClient.FailEverything | autogpt_local_executor/computer_use/mcp_client.py:363-373 | every pending future that is not done fails, the first reason for closing stays |
| McpClient.StdioMcpClient.DispatchLine | autogpt_local_executor/computer_use/mcp_client.py:305-329 | resolves exactly the waiting request the reply names |
| Reviews.HidingSettles | autogpt_local_executor/recording/session.py:96-112 | redacting is idempotent and agrees with a review that hid the value, before or after |
| Reviews.ShownOrHidden | autogpt_local_executor/recording/session.py:81-112 | a step is shown as it is unless it looks like a secret; then its raw value is gone, it is marked as a redacted secret, and nothing else of it changes |
| Reviews.RecordingSession.ApplyReview | autogpt_local_executor/recording/session.py:224-268 | refused exactly if the recording runs or a number was never there; otherwise the loop leaves the reviewed steps |
| Reviews.ReviewedFrom | autogpt_local_executor/recording/session.py:250-265 | a review leaves exactly the steps it does not remove, in order, with the value hidden of those it hides and of no other |
| Reviews.RefusedIff | autogpt_local_executor/recording/session.py:239-248 | over any calls, a review is refused exactly if the recording was not stopped or it names a number none of its steps ever had |
| Reviews.RecordingSession.AppendStep | autogpt_local_executor/recording/session.py:166-177 | a stopped recording takes no step |
| Reviews.KnownStays | autogpt_local_executor/recording/session.py:243-246 | a review never changes which numbers are known, so what was accepted stays acceptable |
| Reviews.ReviewsJoin | autogpt_local_executor/recording/session.py:224-268 | two reviews equal one review of their unions, in either order |
| Reviews.ReplayIsNothing | autogpt_local_executor/recording/session.py:230-237 | an accepted review sent again after any later ones is accepted and changes nothing |
| Reviews.OrderKept | autogpt_local_executor/recording/session.py:250-265 | surviving steps keep their order |
| Reviews.ReviewsAreFinal | autogpt_local_executor/recording/session.py:224-268 | over any later calls a removed step never comes back, nor a hidden value |
| JsonLines.ReadJsonLines | autogpt_local_executor/local_llm_limits.py:47-59 | whatever the chunks, it yields what the LF-separated lines of the whole reply decode to, and fails at the same first oversize or invalid line |
| JsonLines.DecodeIsExact | autogpt_local_executor/local_llm_limits.py:47-73 | up to the first line that is too long or no JSON object, or to the end, the lines with something on them say one value each, in order, and the reply ends as that line makes it |
| JsonLines.SegmentShape | autogpt_local_executor/local_llm_limits.py:50 | a newline in a segment only ends it |
| Nesting.DepthIsLongestChain | autogpt_local_executor/protocol.py:1285-1304 | the depth is at least k exactly if k containers are nested in one another |
| Nesting.NestingDepth | autogpt_local_executor/protocol.py:1285-1304 | the stack loop terminates with the true depth, or 65 if that is less |
| Nesting.AcceptsNesting | autogpt_local_executor/protocol.py:1260-1275 | a frame passes exactly if no 65 containers are nested |

## Left out

- Transport, OAuth, the keychain, subprocesses and native capture: library and OS calls.
- SHA-256, HMAC, base64, `repr` of floats and the at-rest cipher: abstract, with the assumptions above.
- UTF-8: files are characters, so undecodable bytes, `_utf8_safe` and the CRLF of text mode on Windows are not modelled; nor are Python's 4,300-digit limit on ints and RecursionError.
- fsync, chmod and the file lock itself: a locked block is one step; an append that loses only its newline and pruning of old logs are not modelled.
- AuditReports.TailIsLastFilled: the code also takes a seq that is a float or a numeric string, and an hmac of any type; the model refuses these, which no verified log holds.
- The session manager's handlers and the cancellation protocols are step functions on values, not classes with `await`: a coroutine cannot suspend inside a Dafny method. BindingTable and Dispatcher are classes.
- Dispatch.Dispatcher.OnFrame: starts at the two refusals; version checks, PING and SESSION_REVOKED come before it. The machine-wide slots and failures to send a reply are not modelled.
- Session manager: tearing down all children between connections is not modelled, a grant of a root is the binding it encodes, and a stop under way is not itself cancelled; a handler still waiting for its turn to stop a child can be.
- Cancellation.ExitMatchesWork: the shutdown of the event loop, which cancels the job itself, is not modelled.
- FileWalk.Walk: which names match, may be sent or can be stat'ed, and each entry's size on the wire, are given; one listing sees one state of the tree.
- Cancellation.ChangeThatRanIsRecorded: an audit write that raises is logged by `_emit` and not repeated, so the record itself may be missing.
- RateLimiter.ResultPayload: how a text is measured and cut is given; notes are kept apart from the blocks they become.
- Follow.TellsInOrder: truncating the log in place is not modelled; `_follow` never returns, so it is a step system rather than a method.
- DirectoryBrowsers.FollowPages: `casefold` order is a rank given with each entry, tokens come from a counter, and the discovery of the safe roots is a parameter.
- McpClient.OnlyItsOwnReply: starting and stopping the driver process, `list_tools` and the answers to the driver's own requests are left out.
- Reviews.RecordingSession.ApplyReview: the encrypted buffer on disk is best-effort and not modelled; whether a label or role looks secret is given.
- Message schemas, configuration, the command line, `bounded_chunks`, clipboard markers and tool lists would add only easy members.
