# Agent Sentinel: a verified model

Agent Sentinel supervises coding agents. This project models the parts of it that other parts trust without
checking, and proves what they promise. It has five parts.

**Codex App Server transport.** `CodexFraming` is the byte loop that cuts an agent's output into lines;
`CodexRpc` is the pending-request table shared by clients, dispatcher and child watcher; `CodexWorker` is
the notification worker's state, `CodexDiagnostics` says what it writes and `CodexFates` what becomes of
each notification; `CodexTurns` puts clients, dispatcher, watcher and worker around the FIFO command
channel, and `CodexProtection` says exactly when a turn's start record comes first. Clients are steps over
shared state, so every result holds for every interleaving. Storage failures are an arbitrary function of
the attempt's number.

**Filter-free Git inventory.** `GitPaths` to `GitStaged` are the strict NUL-record parsers. Each is proved
against a printer: it accepts exactly the printings of well-formed lists and returns the printed list.
`PathRules` and `GitLiterals` say what paths, modes, object ids and record formats are, by position, number
and letter. `GitWorktree` compares index and disk, `GitListing` and `GitInventory` merge the findings into a
sorted list, and `GitThreeWay` shows that the list is the difference between HEAD, index and disk.
`GitSnapshot` goes from bytes to the list, `GitFlags` is the skip-worktree check, and `GitInspection` goes
from two readings of a repository to its difference. `GitWorktreeFields` and `GitWorktreeList` are the
worktree listing.

**Durable V3 store.** `V3Tasks` keeps every committed version of every task row, with clients that hold
arbitrary old rows; `V3Repository` is the repository's statements and the recovery loop; `V3Events` is the
event log; `V3Requests` the table that makes supervisor requests run once. One SQL statement or transaction
is one step.

**Run contexts, approvals, redaction.** `RunContexts` and `Approvals` are the two tables whose guards
interact, with `ApprovalStore.dfy` (module `ApprovalTables`) for the statements; `Redaction` finds
credentials, `Spelling` says which words and values that is in the letters of the message, `Masking`
replaces them and bounds the text, `Coverage` says exactly what is hidden, `Pieces` and `Idempotence` say
for which messages redacting again changes nothing, and `RedactionSamples` works three messages through.

**Stream decoder, tool loop, prompts, event view.** `ChatStream`, `ChatBody` and `ChatEvents` decode a
chunked completion; `ChatPayloads` says what the decoded payloads amount to; `AgentLoop` is the bounded tool
loop and `AgentOutcomes` how it ends; `OmpPrompts` and `OmpSessions` settle prompts and create the session
once; `EventView` is the desktop's event list.

`Basics`, `Segments`, `Text` and `Utf8` hold shared vocabulary. Code that the program writes as loops or as
objects with changing fields is written here as methods and classes, and each is tied by its contract to a
function; the lemmas about whole runs are about those functions. JSON decoding, Unicode normal forms, the
file system, `git hash-object` and storage failures are parameters, so results hold for all of them.

## Where the code does not do the obvious

- Not every notification becomes durable. `CodexFates.ArrivalFate` says exactly which arrivals do, for any
  state of the worker and any commands and client appends that follow, and `CodexFates.RunFate` says it for
  any run of the whole system: those dropped by `Activate` or `Clear`, cut off by a failed replay, or seen
  before do not. Client appends matter, because they use up numbers (`CodexFates.AppendDecides`). A new
  notification that meets an idle worker and has neither a thread nor the name `turn/started` is held back
  for good (`CodexFates.IdleFate`), because the comparison with the pending turn compares options.
- A turn's start record need not come before the turn's notifications. An earlier turn's late `Flush` of the
  same thread releases them too early (`CodexTurns.ForeignFlushBreaksOrder`), and so does a `Clear` or
  another thread's `Activate`. `CodexProtection.TurnProtectedExactly` says that these commands are exactly
  what breaks the order while the request is in flight; once the record is durable nothing does
  (`CodexProtection.RecordedInTime`).
- A dropped request future leaves its table entry behind (`CodexRpc.AbandonedEntriesStay`), so the table can
  be full without any caller (`CodexRpc.AbandonedRequestsBlock`).
- `Blocked` counts as terminal but can be left, so only the other terminal lifecycles are final
  (`V3Lifecycles.NoWayOut`). Moving to `Recovering` with `transition_task` writes a row that cannot be
  read again (`V3Tasks.TransitionReadable`, exactly then, and `V3Tasks.UnreadableIsFinal`).
- The event insertion of `transition_task_with_event` does not compare sequence numbers
  (`V3Events.UncheckedInsertOrder` says exactly when the log stays in order).
- The merge refuses a repository with an untracked file that is still in HEAD, as left by
  `git rm --cached` (`GitThreeWay.MergeableExactly`; `GitThreeWay.StillInHead` is such a repository).
- Stages 1 and 3 are called "deleted by them" and stages 1 and 2 "deleted by us", which is the opposite of
  the table in git-status(1). `GitConflicts.NamesOtherSide` says that these two are the only differences.
- An inspection refuses every repository in which a path has two conflict stages: git prints an entry for
  each stage of a path, and the skip-worktree check takes a repeated path for malformed. So of the seven
  conflict kinds only those with a single stage can be listed (`GitInspection.OnlyOneStage`).
- Redaction does not hide every character of every hit: in `token="a sk-b"c` the `c` stays
  (`RedactionSamples.HitCanLeak`). `Coverage.HitsHiddenExactly` says exactly when all of them are hidden.
- Redacting is not idempotent: `token="a"b` becomes `token=[REDACTED]b`, and that becomes
  `token=[REDACTED]` (`RedactionSamples.TwiceRemovesMore`). `Idempotence.IdempotentExactly` says exactly for
  which messages a second pass changes nothing, piece by kept piece; `Idempotence.DelimitedIsIdempotent`
  says that it is enough that all hits are hidden and that behind each replaced range is a delimiter or the
  end.
- An event of another run that meets an empty view is shown; `EventView.ViewsInOrder` says that the view is
  of the displayed run exactly if none has since the last merge.
- Two OMP sessions are stored if a call is dropped between storing and recording
  (`OmpSessions.StoredTwice`; `OmpSessions.StoredExactly` counts them).
- Events of a completion that is not streamed are numbered from 3, so their numbers have a gap exactly
  when no rate limits were announced (`ChatEvents.WholeNumbersExactly`).

## Model

| member | source | states |
|---|---|---|
| `CodexFraming.DispatchStdout` | crates/sentinel-codex/src/lib.rs:1029-1071 | For any chunking, the frames and diagnostics are those of splitting the whole stream at newlines: a terminated line of at most 16384 bytes is one frame, a longer one is one diagnostic, an unterminated tail is no frame. |
| `CodexFraming.ExpectedOfLines` | crates/sentinel-codex/src/lib.rs:1036-1069 | Line i alone decides output i, and the tail contributes at most a diagnostic. |
| `CodexFraming.OnBytesExpected` | crates/sentinel-codex/src/lib.rs:1036-1069 | After every byte the loop's buffer and discarding flag are the ones the reference reading calls for. |
| `CodexFraming.DeliveredFramesFit` | crates/sentinel-codex/src/lib.rs:1072-1130 | The parser's length guard never fires on a frame that was handed on; malformed means malformed JSON. |
| `CodexFraming.WrittenLineIsDelivered` | crates/sentinel-codex/src/lib.rs:1029-1071 | A newline-free message within the limit that the child writes as a line is framed as itself, whatever complete lines came before. |
| `CodexFraming.DeliverExactly` | crates/sentinel-codex/src/lib.rs:1072-1130 | A line is ignored exactly if it is empty up to a carriage return, and otherwise taken for a notification, a response with its result or error, or reported, exactly as the method, id, error and result of its JSON value say. |
| `CodexRpc.InvHolds` | crates/sentinel-codex/src/lib.rs:843-868 | In every interleaving: ids are numbered and below the counter, at most 64 are pending, a caller at work has its entry or its outcome, and each response frame was delivered to its own id or got one diagnostic. |
| `CodexRpc.SettlesOnce` | crates/sentinel-codex/src/lib.rs:843-868 | A settled or abandoned request never changes again, a delivery is never replaced, histories only grow. |
| `CodexRpc.SettlesFromOwnFrame` | crates/sentinel-codex/src/lib.rs:1101-1130 | A request that returns a value returns the outcome of a frame with its own id, and that frame has no diagnostic. |
| `CodexRpc.WaitingIsAnswerable` | crates/sentinel-codex/src/lib.rs:854-868 | A waiting caller is in the table or has its outcome, and a drain answers it. |
| `CodexRpc.ResponseIsExact` | crates/sentinel-codex/src/lib.rs:1101-1130 | A response removes exactly its id or yields one unmatched-response diagnostic, and touches no other request. |
| `CodexRpc.AbandonedEntriesStay` | crates/sentinel-codex/src/lib.rs:786-794 | A dropped request's entry stays until a response or a drain takes it out. |
| `CodexRpc.AbandonedRequestsBlock` | crates/sentinel-codex/src/lib.rs:786-853 | A run of 64 dropped requests fills the table although no caller is left, and the next request is refused. |
| `CodexRpc.Shared.AllocateId` | crates/sentinel-codex/src/lib.rs:843-845 | Each id is given once, in order. |
| `CodexRpc.Shared.TryInsert` | crates/sentinel-codex/src/lib.rs:846-853 | An entry is added unless 64 are pending, and then nothing changes. |
| `CodexRpc.Shared.Remove` | crates/sentinel-codex/src/lib.rs:854-868 | Exactly the named entry is taken out. |
| `CodexRpc.Shared.CompleteFrame` | crates/sentinel-codex/src/lib.rs:1101-1130 | A response takes out and answers its entry, or is recorded as unmatched. |
| `CodexRpc.Shared.CompleteAll` | crates/sentinel-codex/src/lib.rs:1157-1162 | The drain empties the table and answers every entry that was in it, and no other. |
| `CodexWorker.EventState.EmitState` | crates/sentinel-codex/src/lib.rs:1352-1379 | The number is spent whether or not storage accepts the event. |
| `CodexWorker.EventState.HandleNotification` | crates/sentinel-codex/src/lib.rs:1224-1313 | Holds back, drops as seen, or records with the transport diagnostic, exactly as the specification function says. |
| `CodexWorker.EventState.FlushNotifications` | crates/sentinel-codex/src/lib.rs:1212-1223 | Replays the buffer in order until one fails. |
| `CodexWorker.EventState.Perform` | crates/sentinel-codex/src/lib.rs:1164-1211 | One command has exactly the effect of the specification function. |
| `CodexWorker.WorkKeepsInv` | crates/sentinel-codex/src/lib.rs:1164-1211 | Every command keeps: only the pending turn's notifications are buffered, no notification is written twice, each arrival occurs once, each thread's ordinary arrivals stay in order; the log only grows. |
| `CodexWorker.ReplayKeepsInv` | crates/sentinel-codex/src/lib.rs:1212-1223 | Replaying a flushed buffer buffers nothing again and keeps the log's order. |
| `CodexWorker.ReplayWrites` | crates/sentinel-codex/src/lib.rs:1212-1223 | A replay writes nothing but what had been held back. |
| `CodexWorker.FlushEmptiesBuffer` | crates/sentinel-codex/src/lib.rs:1212-1261 | Flushing the pending turn leaves no buffered notification. |
| `CodexDiagnostics.NotificationExactly` | crates/sentinel-codex/src/lib.rs:1224-1313 | In every run the next notification is held back, dropped as seen, or written with the next number, its place of arrival and a diagnostic: late exactly if a notification seen before completed its turn, out of order exactly if an item completes that none seen before started. |
| `CodexDiagnostics.RunRemembers` | crates/sentinel-codex/src/lib.rs:1276-1310 | In every run the two memories behind the diagnostics are what the notifications seen so far say. |
| `CodexDiagnostics.ClientSteps` | crates/sentinel-codex/src/lib.rs:720-777 | A client that starts a turn sends `Activate`; then it sends `Clear` or appends its record; and once that is durable it sends `Flush`. |
| `CodexDiagnostics.OtherCommands` | crates/sentinel-codex/src/lib.rs:1164-1211 | The effect of every other command on the worker's fields. |
| `CodexFates.ArrivalFate` | crates/sentinel-codex/src/lib.rs:1164-1379 | For any consistent worker state, any notification and any later commands and client appends: the arrival ends up in the log exactly if it has a name and either is not held back, is new and is stored, or is held back, the first command that decides about the buffer is the pending turn's flush, its value is new at that point, and storage takes it and every new value before it. |
| `CodexFates.RunFate` | crates/sentinel-codex/src/lib.rs:720-777 | The same for the next notification in the channel of any run of clients, dispatcher, watcher and worker, whatever the rest of the run. |
| `CodexFates.WorkerOfRun` | crates/sentinel-codex/src/lib.rs:885-900 | In any run the worker's state is changed by the commands it handles and the clients' appends, in that order, and by nothing else. |
| `CodexFates.AppendDecides` | crates/sentinel-codex/src/lib.rs:751-777 | A state and a storage failure for which the turn's own append before its flush decides that a notification is lost. |
| `CodexFates.ReplayReaches` | crates/sentinel-codex/src/lib.rs:1212-1223 | A replay writes exactly the items whose value is new and which it reaches before storage refuses. |
| `CodexFates.IdleFate` | crates/sentinel-codex/src/lib.rs:1255-1261 | A new notification that meets an idle worker becomes durable, whatever commands and appends follow, exactly if it names a thread or is `turn/started`. |
| `CodexFates.IdleThreadlessIsLost` | crates/sentinel-codex/src/lib.rs:1255-1261 | A threadless notification arriving while idle never becomes durable, whatever commands and appends follow. |
| `CodexTurns.TurnStartedFirst` | crates/sentinel-codex/src/lib.rs:729-777 | In every interleaving and for any storage failures, an undisturbed turn's durable start record precedes every ordinary notification of its thread that was enqueued between its `Activate` and its `Flush`. |
| `CodexProtection.TurnProtectedExactly` | crates/sentinel-codex/src/lib.rs:720-777 | While a turn's request is in flight and storage works: no `Clear`, no flush of its thread and no other thread's `Activate` has followed its `Activate` exactly if, from every moment since then, every continuation without such a command keeps its start record first. |
| `CodexProtection.RecordedInTime` | crates/sentinel-codex/src/lib.rs:720-777 | If the start record of an undisturbed turn becomes durable, no continuation whatsoever puts a notification of the turn before it. |
| `CodexTurns.TurnsArePlaced` | crates/sentinel-codex/src/lib.rs:729-777 | Each turn's `Activate` and `Flush` are in the channel where the ordering result looks for them. |
| `CodexTurns.DurableLogOrder` | crates/sentinel-codex/src/lib.rs:1164-1268 | In the durable log numbers grow, no notification is written twice, no arrival twice, and a thread's ordinary notifications are in arrival order. |
| `CodexTurns.FlushHoldsNothingBack` | crates/sentinel-codex/src/lib.rs:1212-1261 | In every reachable state all buffered notifications are of the pending turn and its flush empties the buffer. |
| `CodexTurns.EveryRecordWasDequeued` | crates/sentinel-codex/src/lib.rs:1164-1199 | Each durable or buffered notification came out of the channel at the position of its arrival number. |
| `CodexTurns.ForeignFlushBreaksOrder` | crates/sentinel-codex/src/lib.rs:759-777 | A concrete run in which an older turn's flush makes a notification durable before the newer turn's start record. |
| `GitPaths.ModeRoundTrip` | crates/sentinel-git/src/lib.rs:1806-1815 | Parsing a printed mode gives the mode back. |
| `PathRules.PathExact` | crates/sentinel-git/src/lib.rs:1844-1879 | A path is accepted exactly if it is stable text of 1 to 4096 bytes without NUL, does not begin with a slash, a backslash or a drive, and nothing between two neighbouring slashes or ends is empty, `.` or `..`. |
| `PathRules.NeverAbove` | crates/sentinel-git/src/lib.rs:1854-1858 | Walking an accepted path from the root leads one level further down with each step. |
| `PathRules.ModeIsNumber` | crates/sentinel-git/src/lib.rs:1806-1815 | A text is a mode exactly if it is that mode's file type and permission bits in six octal digits. |
| `PathRules.OidIsHex` | crates/sentinel-git/src/lib.rs:1816-1822 | An object id is the lower-case hexadecimal text of twenty bytes. |
| `PathRules.Layouts` | crates/sentinel-git/src/lib.rs:1078-1111 | The record formats byte by byte. |
| `PathRules.StatusLetters` | crates/sentinel-git/src/lib.rs:1537-1557 | The status letters of a raw record. |
| `GitLiterals.NodeModes` | crates/sentinel-git/src/lib.rs:1144-1162 | What is found on disk has the mode number git would record: 120000 for a link, 100755 or 100644 for a file. |
| `GitLiterals.FlagTags` | crates/sentinel-git/src/lib.rs:1895-1906 | The tags of index entries are the six letters, and `S` says skip-worktree. |
| `GitLiterals.Limits` | crates/sentinel-git/src/lib.rs:1067-1107 | Every record list has the limit 1000. |
| `GitLiterals.ReportedOne` | crates/sentinel-git/src/lib.rs:1555-1571 | A staged record is reported unless it is unmerged, with an absent mode as none. |
| `GitLiterals.FieldTexts` | crates/sentinel-git/src/lib.rs:2143-2187 | The attribute lines of a worktree listing in letters. |
| `GitLiterals.FieldsExactly` | crates/sentinel-git/src/lib.rs:2145-2159 | A listed path is absolute with no empty, `.` or `..` component, and a commit is forty hexadecimal digits of either case. |
| `GitIndex.EntryExact` | crates/sentinel-git/src/lib.rs:1078-1111 | A record parses to an entry exactly when it is that entry's text and the entry is valid. |
| `GitIndex.PrintIndexInjective` | crates/sentinel-git/src/lib.rs:1067-1107 | No two valid entry lists have the same text. |
| `GitIndex.ParseIndexStage` | crates/sentinel-git/src/lib.rs:1067-1107 | The parser is the exact inverse of the printer: what it accepts is the printing of its result, a list without repeated (path, stage) and of at most 1000 entries; and every printing of such a list is accepted. |
| `GitRecords.ParseUntracked` | crates/sentinel-git/src/lib.rs:1575-1592 | The exact inverse of NUL-terminating a list of at most 1000 distinct valid paths. |
| `GitConflicts.SlotExact` | crates/sentinel-git/src/lib.rs:1608-1636 | A path's stage slot is filled exactly by the record with that path and stage, and no path is left without a stage. |
| `GitConflicts.ParseUnmerged` | crates/sentinel-git/src/lib.rs:1601-1651 | Accepts exactly the printings of stage 1 to 3 records without repeats and with at most 1000 paths; the result describes each path's stage set once, in whatever order. |
| `GitConflicts.ListConflicts` | crates/sentinel-git/src/lib.rs:1637-1651 | Walking the map in any order lists each path once with the description of its own stages, and fails exactly if some path has no stage. |
| `GitStaged.RawExact` | crates/sentinel-git/src/lib.rs:1537-1557 | A header and path parse to a record exactly when they are its two fields. |
| `GitStaged.PrintStagedInjective` | crates/sentinel-git/src/lib.rs:1525-1572 | No two valid record lists have the same text. |
| `GitStaged.ParseStaged` | crates/sentinel-git/src/lib.rs:1525-1572 | Accepts exactly the printings of at most 1000 records with distinct paths, and reports all but the unmerged ones in order, absent modes as none. |
| `GitListing.SortedUnique` | crates/sentinel-git/src/lib.rs:1287-1289 | A list sorted by path bytes is determined by what it lists. |
| `GitListing.LessExactly` | crates/sentinel-git/src/lib.rs:1287-1289 | Paths are ordered by the first byte in which they differ, a proper prefix first. |
| `GitListing.SortFiles` | crates/sentinel-git/src/lib.rs:1287-1289 | Whatever order the map gives its files in, the result is strictly sorted and lists exactly them. |
| `GitWorktree.CompareExact` | crates/sentinel-git/src/lib.rs:1164-1223 | A comparison fails exactly for gitlinks, special or unreadable or unhashable files; it reports no change exactly when mode and content agree; and the reported kind says which of deletion, type and content differs. |
| `GitWorktree.ComparedExact` | crates/sentinel-git/src/lib.rs:1164-1223 | The loop's list has one change for each stage-0 entry that differs from the disk, and nothing else. |
| `GitWorktree.ComparedSucceeds` | crates/sentinel-git/src/lib.rs:1164-1223 | The loop succeeds exactly when every stage-0 entry can be compared. |
| `GitWorktree.CollectWorktreeChanges` | crates/sentinel-git/src/lib.rs:1164-1223 | For the printing of a well-formed index the outcome is the comparison of that index; anything else is refused. |
| `GitInventory.AddStaged` | crates/sentinel-git/src/lib.rs:1235-1246 | One staged change is entered, or refused exactly if its path already has one; afterwards the map says what the sources so far say. |
| `GitInventory.AddUnstaged` | crates/sentinel-git/src/lib.rs:1247-1261 | The same for a worktree change, which fills the index mode only if no staged change did. |
| `GitInventory.AddUntracked` | crates/sentinel-git/src/lib.rs:1262-1270 | The same for an untracked path, refused exactly if anything was found for it. |
| `GitInventory.AddUnmerged` | crates/sentinel-git/src/lib.rs:1271-1283 | The same for a conflict, refused exactly if the path has one or is untracked. |
| `GitInventory.MergeLists` | crates/sentinel-git/src/lib.rs:1234-1289 | The merge succeeds exactly when no source names a path twice, untracked paths have no other finding, and at most 1000 paths are listed; the result is strictly sorted and has for each path with a finding one file, each field from its source. |
| `GitInventory.SubmoduleExactly` | crates/sentinel-git/src/lib.rs:1235-1261 | A path is flagged as a submodule exactly if one of its changes has a gitlink on either side, and as modified exactly if the one on disk has. |
| `GitInventory.OrderIndependent` | crates/sentinel-git/src/lib.rs:1227-1289 | Sources that agree path by path give the same list, whatever the order of their records. |
| `GitInventory.MergeablePrefix` | crates/sentinel-git/src/lib.rs:1234-1283 | Sources that merge also merge up to any point, so the first refusal is final. |
| `GitThreeWay.FindingIsDifference` | crates/sentinel-git/src/lib.rs:1164-1289 | For a repository and the records git prints for it, each source finds at a path exactly its part of the HEAD, index and disk difference: the staged change with both modes, the change on disk with kind and modes, and the conflict that the path's stages make. |
| `GitThreeWay.InventoryIsDifference` | crates/sentinel-git/src/lib.rs:1164-1289 | A path is listed exactly when it is unmerged, differs between HEAD and index, differs between index and disk, or is untracked; and every field of its file, kinds, conflict, submodule flag and the three modes, is what HEAD, index, stages and disk hold. |
| `GitThreeWay.MergeableExactly` | crates/sentinel-git/src/lib.rs:1262-1283 | For a repository the sources merge exactly when no untracked path is in HEAD. |
| `GitThreeWay.StillInHead` | crates/sentinel-git/src/lib.rs:1262-1270 | A repository with one committed path taken out of the index and left on disk: its records are canonical and the merge refuses them. |
| `GitThreeWay.CollectedSlot` | crates/sentinel-git/src/lib.rs:1608-1636 | The stage map holds exactly the modes that the index holds for stages 1 to 3. |
| `GitConflicts.NamesOtherSide` | crates/sentinel-git/src/lib.rs:1637-1648 | The names of stage sets are those of git-status(1) except for {1,2} and {1,3}, where they are exchanged. |
| `GitThreeWay.ListedTable` | crates/sentinel-git/src/lib.rs:1637-1651 | A listing of the stage map in any order finds for each path what the map says, once. |
| `GitSnapshot.MergeSnapshot` | crates/sentinel-git/src/lib.rs:1227-1289 | From bytes to list: refused exactly when a stream is not a printing of well-formed records or the records cannot be merged; otherwise the sorted report of what they say. |
| `GitInspection.InspectChanges` | crates/sentinel-git/src/lib.rs:776-794 | From bytes to difference: what git prints for a repository, read twice alike, is refused exactly if a path has two index entries, a file is marked skip-worktree, a merged file cannot be compared, an untracked path is in HEAD or more than 1000 paths differ, and otherwise gives the sorted three-way difference; readings that differ are refused. |
| `GitInspection.CollectSnapshot` | crates/sentinel-git/src/lib.rs:924-1056 | One reading: refused exactly if the index is not plain (a path twice, or skip-worktree), cannot be compared or changed in between. |
| `GitInspection.OnlyOneStage` | crates/sentinel-git/src/lib.rs:943-945 | In a repository that can be reported no conflict has two stages. |
| `GitFlags.HasSkipWorktree` | crates/sentinel-git/src/lib.rs:1885-1909 | The exact inverse of printing tagged entries with distinct paths, at most 1000; the answer is whether one is tagged skip-worktree. |
| `GitFlags.FlagExact` | crates/sentinel-git/src/lib.rs:1895-1902 | A record parses to a tag and path exactly when it is their text and both are valid. |
| `GitInspection.AcceptedExactly` | crates/sentinel-git/src/lib.rs:1227-1289 | A repository can be reported exactly if its index is plain and the merge of its canonical records succeeds. |
| `GitWorktreeFields.FieldRoundTrip` | crates/sentinel-git/src/lib.rs:2143-2187 | A valid attribute's text parses back to it, is not empty and has no NUL. |
| `GitWorktreeFields.AcceptedField` | crates/sentinel-git/src/lib.rs:2143-2187 | Only valid attributes are accepted from text without NUL. |
| `GitWorktreeFields.EmptyReason` | crates/sentinel-git/src/lib.rs:2171-2177 | `locked` with and without a trailing space say the same. |
| `GitWorktreeList.ParseRecord` | crates/sentinel-git/src/lib.rs:2135-2207 | The field loop computes the record of its fields, each attribute at most once, or refuses. |
| `GitWorktreeList.RecordRoundTrip` | crates/sentinel-git/src/lib.rs:2135-2207 | The printed fields of any valid record give the record back; none is empty or has a NUL. |
| `GitWorktreeList.ParseList` | crates/sentinel-git/src/lib.rs:2102-2133 | The scan over pieces and the check for repeated paths compute the specification function. |
| `GitWorktreeList.ListRoundTrip` | crates/sentinel-git/src/lib.rs:2102-2133 | Printing any nonempty list of valid records with distinct paths and parsing it gives the list back. |
| `GitWorktreeList.AcceptedList` | crates/sentinel-git/src/lib.rs:2102-2207 | Whatever is accepted is a nonempty list of valid records with consistent bare, detached, branch and HEAD fields and distinct paths. |
| `GitWorktreeList.Normalizes` | crates/sentinel-git/src/lib.rs:2102-2207 | Printing what was accepted and parsing it again changes nothing. |
| `GitWorktreeList.LookupIsDecided` | crates/sentinel-git/src/lib.rs:2085-2096 | After an accepted parse at most one record matches, so the branch for several matches is dead. |
| `GitWorktreeList.LookUp` | crates/sentinel-git/src/lib.rs:2085-2096 | How often the expected path is listed decides the answer. |
| `GitWorktreeList.MetadataLookup` | crates/sentinel-git/src/lib.rs:2070-2097 | The lookup fails exactly when the listing is malformed and otherwise says whether the path is listed. |
| `V3Lifecycles.RecoveryEdges` | crates/sentinel-core/src/v3.rs:85-179 | The lifecycle table allows `Recovering` from exactly the lifecycles recovery picks. |
| `V3Lifecycles.NoWayOut` | crates/sentinel-core/src/v3.rs:74-179 | The lifecycles without an outgoing edge are exactly the terminal ones other than `Blocked`. |
| `V3Lifecycles.TaskEdgesExactly` | crates/sentinel-core/src/v3.rs:85-179 | The task table read the other way: from where each lifecycle can be entered. |
| `V3Lifecycles.SessionEdgesExactly` | crates/sentinel-core/src/v3.rs:193-241 | The same for sessions; live sessions are exactly those that may be marked for recovery, terminal ones exactly those without an edge. |
| `V3Tasks.OptimisticConcurrency` | crates/sentinel-core/src/v3.rs:997-1023 | For any interleaving of clients with stale rows: each version is committed once, a matching version means the client holds the stored row, and stored lifecycles only follow the table, recovery included. |
| `V3Tasks.StepExactly` | crates/sentinel-core/src/v3.rs:997-1023 | In every run a client's step writes a row exactly if the row it holds is the stored one, can be read and may move so; and each field of that row is given, the mode of a mode change included. |
| `V3Tasks.ReadableExactly` | crates/sentinel-core/src/v3.rs:1704-1735 | A row can be read exactly if it remembers where recovery began while recovering, and has an end time exactly when finished. |
| `V3Tasks.CommittedRowsStay` | crates/sentinel-core/src/v3.rs:1007-1023 | No step rewrites or drops a committed row. |
| `V3Tasks.FinishedStaysFinished` | crates/sentinel-core/src/v3.rs:85-179 | A terminal lifecycle other than `Blocked` is never left. |
| `V3Tasks.TransitionReadable` | crates/sentinel-core/src/v3.rs:1704-1735 | `transition_task` leaves a row that can be read again exactly when it does not move to `Recovering`. |
| `V3Tasks.UnreadableIsFinal` | crates/sentinel-core/src/v3.rs:1704-1735 | After an unreadable row no client can change the task. |
| `V3Tasks.RecoveryOnlyRunsAreReadable` | crates/sentinel-core/src/v3.rs:1591-1616 | If `Recovering` is entered by recovery alone, every stored row can be read. |
| `V3Repository.V3Repository.CreateTask` | crates/sentinel-core/src/v3.rs:886-907 | A new task gets its first row; a taken id is refused. |
| `V3Repository.V3Repository.GetTask` | crates/sentinel-core/src/v3.rs:908-917 | Returns the last row, or says that it is missing or cannot be read. |
| `V3Repository.V3Repository.UpdateTask` | crates/sentinel-core/src/v3.rs:1007-1023 | A matching version appends the new row, any other version changes nothing. |
| `V3Repository.V3Repository.TransitionTask` | crates/sentinel-core/src/v3.rs:997-1006 | On a row some client has read it is the step of the interleaving model; the two refusals are told apart exactly. |
| `V3Repository.V3Repository.SetTaskWorkflowMode` | crates/sentinel-core/src/v3.rs:918-932 | The same for the workflow mode, which no lifecycle check guards. |
| `V3Repository.V3Repository.TransitionSession` | crates/sentinel-core/src/v3.rs:1150-1165 | A session moves along its table if the version matches, and otherwise nothing changes. |
| `V3Repository.V3Repository.ReconcileTaskSessions` | crates/sentinel-core/src/v3.rs:1638-1650 | Exactly the task's live sessions stop being live. |
| `V3Repository.V3Repository.RestoreUnfinishedTask` | crates/sentinel-core/src/v3.rs:1591-1616 | Recovers one readable task and its sessions and returns the stored row; otherwise nothing changes. |
| `V3Repository.V3Repository.ListTasks` | crates/sentinel-core/src/v3.rs:988-996 | Lists each stored task once, or fails if any row cannot be read. |
| `V3Repository.V3Repository.RestoreUnfinishedTasks` | crates/sentinel-core/src/v3.rs:1620-1636 | The loop recovers every task as a whole or, if a row cannot be read, changes nothing; it returns exactly the tasks that newly entered recovery. |
| `V3Repository.RecoveryIsTotal` | crates/sentinel-core/src/v3.rs:1591-1636 | Afterwards every unfinished task is recovering and remembers a lifecycle recovery may return to; others keep their rows; rows are readable and histories sound. |
| `V3Repository.RecoveryStopsSessions` | crates/sentinel-core/src/v3.rs:1638-1650 | No session of an unfinished task is live afterwards, and the others are as they were. |
| `V3Repository.RecoveryIsIdempotent` | crates/sentinel-core/src/v3.rs:1591-1650 | A second run changes no row and has nothing to return. |
| `V3Events.EventTable.AppendEvent` | crates/sentinel-core/src/v3.rs:1024-1044 | Validates, recognises a retry, compares ids and sequence numbers, and stores, exactly as the specification function says. |
| `V3Events.EventTable.InsertEvent` | crates/sentinel-core/src/v3.rs:1679-1703 | The bare insertion is refused exactly by the table's own constraints. |
| `V3Events.AppendsExactly` | crates/sentinel-core/src/v3.rs:1024-1044 | An append stores its event exactly if its columns are well formed, no event has its id, its task is known and all events of that task have smaller numbers; a known id is accepted exactly for the same event; the other answers are told apart. |
| `V3Events.LogIsOrdered` | crates/sentinel-core/src/v3.rs:1024-1044 | For any appends by any writers the log is append-only, ids are unique and each task's numbers strictly increase. |
| `V3Events.RetryChangesNothing` | crates/sentinel-core/src/v3.rs:1029-1036 | An accepted event can be sent again at any later time: the answer is yes and nothing changes. |
| `V3Events.ReuseIsRejected` | crates/sentinel-core/src/v3.rs:1029-1036 | Using an id for anything else is a conflict without effect. |
| `V3Events.UncheckedInsertOrder` | crates/sentinel-core/src/v3.rs:1045-1067 | The unchecked insertion keeps the log in order exactly when no event of the task has a later number. |
| `V3Events.AdapterStaysAhead` | crates/sentinel-codex/src/lib.rs:385-394 | An adapter that resumes from the last stored number stays at or above every stored number of its task, whatever attempts fail. |
| `V3Events.AdapterCounts` | crates/sentinel-codex/src/lib.rs:385-394 | Its counter is the largest stored number of its task, or zero, plus one for each attempt since. |
| `V3Events.SoleWriterNeverConflicts` | crates/sentinel-codex/src/lib.rs:1352-1379 | As the only writer of its task its next valid event with a new id is stored. |
| `V3Requests.SupervisorRequests.Reserve` | crates/sentinel-core/src/v3.rs:685-728 | Answers new, in progress, replay or conflict, exactly as the specification function says. |
| `V3Requests.SupervisorRequests.Complete` | crates/sentinel-core/src/v3.rs:729-749 | Stores a response exactly for a pending request and a valid response. |
| `V3Requests.RunsAtMostOnce` | crates/sentinel-core/src/v3.rs:685-749 | Over all interleavings at most one caller of a request is told to run it, accepted callers have the same intent, and replays carry the same response. |
| `V3Requests.AnswersExactly` | crates/sentinel-core/src/v3.rs:685-728 | Over all call sequences: a valid reservation is new exactly if no earlier valid one named the request, a conflict exactly if the first one had another intent, in progress exactly until a completion after that, and from then on replayed with the response of the first completion. |
| `V3Requests.CompletesExactly` | crates/sentinel-core/src/v3.rs:729-749 | A completion takes effect exactly if it carries a valid response, the request was named, and none has come since. |
| `V3Requests.RowIsHistory` | crates/sentinel-core/src/v3.rs:685-749 | A request's row holds the intent of the call that named it first and the response of the first completion after that. |
| `V3Requests.OtherIntentsConflict` | crates/sentinel-core/src/v3.rs:700-728 | A conflict is answered exactly for a known request with another kind or fingerprint, without effect; the corrupt-state answer never occurs. |
| `V3Requests.ReplaysACompletion` | crates/sentinel-core/src/v3.rs:700-749 | A replayed response is one that an earlier call completed the request with. |
| `V3Requests.TableGrows` | crates/sentinel-core/src/v3.rs:685-749 | Rows are never dropped, their intent never changes, and a stored response stays. |
| `RunContexts.RunStepMoves` | crates/sentinel-core/src/lib.rs:1422-1705 | A statement changes a row only along an edge, by repeating a cancellation, by a follow-up or by an interruption, with the next version, and never a terminal row. |
| `RunContexts.EdgesExactly` | crates/sentinel-core/src/lib.rs:1631-1650 | The run table read the other way; runs end exactly where no edge leads on. |
| `RunContexts.CreatesExactly` | crates/sentinel-core/src/lib.rs:1422-1478 | A run is created exactly under the stated conditions, with the stated row. |
| `RunContexts.TransitionsExactly` | crates/sentinel-core/src/lib.rs:1631-1664 | A transition takes effect exactly under the stated conditions, and each field of the new row is given. |
| `RunContexts.CancelsExactly` | crates/sentinel-core/src/lib.rs:1665-1691 | A cancellation does nothing to a run that has ended, records the request of a Codex run, and is a transition for a Claude run. |
| `RunContexts.InterruptsExactly` | crates/sentinel-core/src/lib.rs:1594-1613 | A restart fails every run of the adapter in progress and no other; a follow-up is counted exactly on a current running Claude row with a session. |
| `RunContexts.RunStepOneActive` | crates/sentinel-core/migrations/0006_codex_run_contexts.sql:20-22 | At most one run per adapter and owner is active, after every statement. |
| `RunContexts.RunHistory` | crates/sentinel-core/src/lib.rs:1631-1705 | In every run: a run asked to stop never succeeds, a terminal row never changes, and a run that has left the open states never returns to them. |
| `RunContexts.VersionsAreSpent` | crates/sentinel-core/src/lib.rs:1631-1691 | After a successful update no later transition or cancellation with the same remembered row succeeds. |
| `ApprovalTables.ApprovalStore.CreateRunContext` | crates/sentinel-core/src/lib.rs:1422-1478 | Adds a created run, unless the owner is invalid, not ready, or has an active run. |
| `ApprovalTables.ApprovalStore.TransitionRunContext` | crates/sentinel-core/src/lib.rs:1631-1664 | Succeeds exactly for an allowed edge with a current row, and for Codex with a terminal text when terminal. |
| `ApprovalTables.ApprovalStore.RequestCancellation` | crates/sentinel-core/src/lib.rs:1665-1691 | Records the request for Codex in its own statement and goes through the transition for Claude; a terminal snapshot is returned unchanged. |
| `ApprovalTables.ApprovalStore.ReconcileRunContexts` | crates/sentinel-core/src/lib.rs:1700-1705 | After startup every run of the table is terminal, and terminal rows are as they were. |
| `ApprovalTables.ApprovalStore.ReserveClaudeFollowup` | crates/sentinel-core/src/lib.rs:1594-1613 | Succeeds exactly for a current running row with a session. |
| `ApprovalTables.ApprovalStore.CreateApproval` | crates/sentinel-core/src/lib.rs:1723-1828 | Files a request exactly when the input fits, the worktree is owned and the bound run exists and is not over; denied actions are denied and audited in the same step. |
| `ApprovalTables.ApprovalStore.CheckApproval` | crates/sentinel-core/src/lib.rs:1734-1782 | The checks before the transaction pass exactly when the input fits, the worktree is owned and the bound run exists and is not over; nothing changes. |
| `ApprovalTables.ApprovalStore.FileApproval` | crates/sentinel-core/src/lib.rs:1783-1828 | The transaction files the request and, for a denied action, its audit row, whatever became of the run since the checks. |
| `ApprovalTables.ApprovalStore.ResolveApproval` | crates/sentinel-core/src/lib.rs:1878-1914 | Takes effect exactly when the row is pending and current and its run is open and not asked to stop; the audit row is written with it. |
| `ApprovalTables.ApprovalStore.ReconcileApprovals` | crates/sentinel-core/src/lib.rs:1920-1951 | The startup loop denies exactly the pending requests bound to an adapter, with one audit row each, and leaves the others. |
| `Approvals.AuditTrail` | crates/sentinel-core/src/lib.rs:1786-1845 | In every reachable state a pending request has no audit row and every other exactly one with its state, and the requests denied by policy are exactly those for the five denied actions. |
| `Approvals.NotAudited` | crates/sentinel-core/migrations/0009_approval_audit_context.sql:14-28 | The audit table's uniqueness constraint never fires for a pending request. |
| `Approvals.DecisionsAreFinal` | crates/sentinel-core/src/lib.rs:1878-1951 | A decided request never changes, a request keeps its owner and run, and the audit trail only grows. |
| `Approvals.ClosedRunsTakeNoDecision` | crates/sentinel-core/src/lib.rs:1894-1898 | Once a run has left created, starting and running, or has been asked to stop, no later decision on its approvals takes effect, even on one filed afterwards. |
| `Approvals.DecisionsAreTimely` | crates/sentinel-core/src/lib.rs:1878-1914 | A decision takes effect exactly under the statement's guard, and never for a denied action. |
| `Approvals.DecidedOnce` | crates/sentinel-core/src/lib.rs:1878-1914 | After one decision every later attempt on the request fails. |
| `Approvals.StateIsItsDecision` | crates/sentinel-core/src/lib.rs:1878-1951 | In any run a request is allowed once, allowed for the task or denied exactly if a decision that says so, or for a denial an expiry, took effect on it. |
| `Approvals.DeniedWhenFiled` | crates/sentinel-core/src/lib.rs:1786-1828 | The five named actions are denied when filed, all others are pending. |
| `Approvals.StepExactly` | crates/sentinel-core/src/lib.rs:1786-1951 | The whole effect of filing, deciding and expiring on the tables and the audit trail. |
| `Redaction.CollectValues` | crates/sentinel-core/src/lib.rs:854-869 | The loops for the value markers collect the specified hits, resuming after each credential. |
| `Redaction.CollectNames` | crates/sentinel-core/src/lib.rs:870-893 | The loops for the names collect the specified hits, resuming after each name. |
| `Redaction.NamesAreHit` | crates/sentinel-core/src/lib.rs:870-893 | Every occurrence of a name with a separator and a value has that value among the hits: names do not overlap, so none is skipped. |
| `Redaction.ValuesAreHit` | crates/sentinel-core/src/lib.rs:854-869 | Every occurrence of a value marker starts a hit or lies inside one. |
| `Redaction.ValueScanAdvances` | crates/sentinel-core/src/lib.rs:857-867 | Each found credential ends after its marker's start, so the search terminates. |
| `Masking.MaskRanges` | crates/sentinel-core/src/lib.rs:896-906 | The replacement loop computes the specified text. |
| `Masking.MaskIsMasked` | crates/sentinel-core/src/lib.rs:896-906 | That text is the message with disjoint ranges, chosen greedily left to right, replaced by the marker and everything else kept in order. |
| `Masking.SortDedupExact` | crates/sentinel-core/src/lib.rs:894-895 | The sorted hits are strictly sorted and are exactly the hits. |
| `Masking.EveryHitTouched` | crates/sentinel-core/src/lib.rs:896-904 | Each hit is replaced or starts inside a replaced range. |
| `Masking.HitIsCredential` | crates/sentinel-core/src/lib.rs:854-893 | Every hit ends where the credential at its start ends, and starts at `sk-` or after a space or separator. |
| `Coverage.HitsHiddenExactly` | crates/sentinel-core/src/lib.rs:851-906 | For every message: each character of each hit is replaced exactly if, scanning the sorted hits, nothing skipped reaches beyond the replaced text before the next replaced range starts, nor at the end. |
| `Coverage.CoversExactly` | crates/sentinel-core/src/lib.rs:896-904 | The same for any ordered ranges and from any state of the loop. |
| `Coverage.FixedExactly` | crates/sentinel-core/src/lib.rs:851-906 | Redaction leaves a message alone exactly if each range it would replace reads as the marker. |
| `Idempotence.IdempotentExactly` | crates/sentinel-core/src/lib.rs:851-906 | For every message: a second redaction changes nothing exactly if in each kept piece no key lies and the value of each `bearer` and each name with a separator is a replaced range with a delimiter or the end behind it and no other range at its end, or a delimited marker of the message itself. |
| `Idempotence.FixedBySettled` | crates/sentinel-core/src/lib.rs:851-906 | Redaction leaves a text alone exactly if no key occurs in it and each `bearer` and each name with a separator and a value is followed by a delimited marker. |
| `Idempotence.DelimitedIsIdempotent` | crates/sentinel-core/src/lib.rs:851-906 | If all hits are hidden and behind each replaced range is a delimiter or the end and no other replaced range, redacting again changes nothing. |
| `Idempotence.NameIsHit` | crates/sentinel-core/src/lib.rs:870-893 | Every occurrence of a name with a value has that value among all hits of the message. |
| `Spelling.SameHits` | crates/sentinel-core/src/lib.rs:852-893 | Messages that differ only in the case of ASCII letters have the same hits. |
| `Spelling.AssignedIsHit` | crates/sentinel-core/src/lib.rs:870-893 | Each of the six names, in any mix of cases, followed by white space, an equals sign or colon, white space and a value, has that value hit. |
| `Spelling.BearerIsHit` | crates/sentinel-core/src/lib.rs:854-869 | What follows `bearer ` in any mix of cases is hit, or a hit that began earlier goes over the word. |
| `Spelling.KeyIsHit` | crates/sentinel-core/src/lib.rs:854-869 | `sk-` in any mix of cases is hit from its start, or a hit that began earlier goes over it. |
| `Spelling.HitHasCause` | crates/sentinel-core/src/lib.rs:854-893 | Every hit starts at a spelled `sk-`, right after a spelled `bearer `, or at the value of a spelled name. |
| `Spelling.HitExtent` | crates/sentinel-core/src/lib.rs:926-950 | A quoted hit ends behind the next such quote, any other before the next white space, comma, semicolon or ampersand, or at the end. |
| `Pieces.GluedSettled` | crates/sentinel-core/src/lib.rs:851-906 | A text made of a kept piece, a marker and a rest has nothing left to redact exactly if the piece and the rest have not: no word overlaps the marker. |
| `RedactionSamples.HitCanLeak` | crates/sentinel-core/src/lib.rs:851-906 | In one message a character of a hit stays. |
| `RedactionSamples.TwiceRemovesMore` | crates/sentinel-core/src/lib.rs:851-906 | For one message the second redaction removes a character that the first left. |
| `Masking.RedactedShape` | crates/sentinel-core/src/lib.rs:851-906 | The three facts together, for every message. |
| `Masking.Redact` | crates/sentinel-core/src/lib.rs:851-906 | The program's loops compute that output for every message. |
| `Masking.Bound` | crates/sentinel-core/src/lib.rs:915-925 | The truncation loop returns the longest prefix of whole characters that fits in the limit (RFC 3629, section 3). |
| `Masking.LongestFittingIsUnique` | crates/sentinel-core/src/lib.rs:915-925 | There is only one such prefix. |
| `Utf8.SizeIsEncoded` | crates/sentinel-core/src/lib.rs:915-925 | The size of a character is that of its encoding, which decodes to it (RFC 3629, section 3). |
| `Utf8.LengthIsEncoded` | crates/sentinel-core/src/lib.rs:915-925 | The length of a text in bytes is that of its encoding. |
| `Utf8.WhiteSpace` | crates/sentinel-core/src/lib.rs:874-886 | White space is the Unicode property, listed. |
| `Utf8.NonEmptyExactly` | crates/sentinel-core/src/v3.rs:1652-1658 | Required text has a character that is not white space and an encoding that fits. |
| `Masking.RedactAndBound` | crates/sentinel-core/src/lib.rs:915-925 | The result is that prefix of the redacted text. |
| `ChatBody.FeedAppend` | crates/sentinel-provider-api/src/openai_chat.rs:309-331 | Bytes can be fed in one go or one part after the other. |
| `ChatBody.ParseStream` | crates/sentinel-provider-api/src/openai_chat.rs:293-375 | For a body of at most 8 MiB, result and events are those of its bytes, wherever the chunks were cut and however the stream ended; a longer body is malformed, with the events of the complete lines in the chunks that arrived before the limit was passed. |
| `ChatBody.StreamAccumulator.ProcessLine` | crates/sentinel-provider-api/src/openai_chat.rs:377-460 | One line has exactly the specified effect, and none if its data does not decode. |
| `ChatBody.StreamAccumulator.Drain` | crates/sentinel-provider-api/src/openai_chat.rs:321-330 | The line loop handles every complete line of the buffer and leaves the rest. |
| `ChatBody.StreamAccumulator.EmitToolCalls` | crates/sentinel-provider-api/src/openai_chat.rs:336-374 | The calls are announced in order of index, then the completion, unless a call's arguments do not parse. |
| `ChatEvents.FeedIsFold` | crates/sentinel-provider-api/src/openai_chat.rs:321-330 | Feeding a body is handling its newline-terminated, trimmed lines in order; the piece after the last newline is left over. |
| `ChatStream.HandleFaithful` | crates/sentinel-provider-api/src/openai_chat.rs:377-460 | After every line the text, the reasoning and each tool are the concatenation of their deltas in event order, and the events are numbered without gaps. |
| `ChatEvents.OutcomeAgrees` | crates/sentinel-provider-api/src/openai_chat.rs:293-375 | For every body: events are numbered from the first free number; on success completion and events agree, tools in order of index, the calls announced are exactly the completion's calls, and the one completion event is last; otherwise there is none. |
| `ChatPayloads.CompletionIsDecoded` | crates/sentinel-provider-api/src/openai_chat.rs:293-460 | For every body that arrives whole: it is malformed exactly if a data line does not decode or a tool's arguments do not parse; otherwise text, reasoning and each tool are the concatenation of what the decoded payloads give in line order, finish reason and usage are the last ones given, and the events are those of the payloads, the calls and the completion. |
| `ChatPayloads.BrokenIsDecoded` | crates/sentinel-provider-api/src/openai_chat.rs:309-331 | A body that breaks off fails with what broke it off unless a line before that does not decode, and has the events of the payloads so far. |
| `ChatPayloads.DataExactly` | crates/sentinel-provider-api/src/openai_chat.rs:383-392 | A data line is `data:`, at most one space and the data, which is not `[DONE]`. |
| `ChatPayloads.TrimExactly` | crates/sentinel-provider-api/src/openai_chat.rs:323-328 | A line loses exactly its trailing newlines and carriage returns. |
| `ChatPayloads.DigitsAreDecimal` | crates/sentinel-provider-api/src/openai_chat.rs:342-346 | A tool without an id is named after its index in decimal. |
| `ChatEvents.TooLongIsUnfinished` | crates/sentinel-provider-api/src/openai_chat.rs:309-316 | A body over the limit announces no call and no completion, and its events are numbered as always. |
| `ChatEvents.StreamedNumbers` | crates/sentinel-provider-api/src/openai_chat.rs:41-88 | A streamed request numbers all its events 1, 2, 3 and so on. |
| `ChatEvents.WholeNumbersExactly` | crates/sentinel-provider-api/src/openai_chat.rs:238-260 | A body that is not streamed is numbered from 3, without a gap exactly when rate limits were announced. |
| `AgentLoop.RunTools` | crates/sentinel-provider-api/src/agent.rs:132-151 | Runs the calls in order until one fails or answers too much; on success the messages grow by the assistant message and one result per call. |
| `AgentLoop.RunAgentLoop` | crates/sentinel-provider-api/src/agent.rs:53-158 | The result is the specified one; the k-th request is the transcript of the first k finished rounds; on success the tool count equals the calls made and executed. |
| `AgentOutcomes.OutcomeExactly` | crates/sentinel-provider-api/src/agent.rs:82-158 | The loop ends with the first round that is cancelled, fails, calls no tool, calls more than 32, or has a tool that fails or answers more than 512 KiB, and with that outcome; if every round goes on it is unavailable. |
| `AgentOutcomes.RequestOkExactly` | crates/sentinel-provider-api/src/agent.rs:53-76 | The limits on a request. |
| `AgentOutcomes.RoundIdExactly` | crates/sentinel-provider-api/src/agent.rs:98-99 | A round's id is the request's, a hyphen and the number in two digits. |
| `AgentLoop.TranscriptShape` | crates/sentinel-provider-api/src/agent.rs:77-151 | Read as a flat list, a transcript is System, User, and assistant messages with 1 to 32 calls, each directly followed by exactly one result per call in call order. |
| `AgentLoop.RequestsExtend` | crates/sentinel-provider-api/src/agent.rs:94-104 | Each request extends the one before it. |
| `AgentLoop.RoundIdsDistinct` | crates/sentinel-provider-api/src/agent.rs:98-99 | The rounds of a loop have distinct request ids. |
| `AgentLoop.CallCountBound` | crates/sentinel-provider-api/src/agent.rs:125-131 | Between 1 and 32 calls are counted per finished round. |
| `OmpPrompts.PromptsSettleOnce` | crates/sentinel-omp/src/lib.rs:437-478 | In every interleaving a prompt is told at most one outcome, a waiting one none, and the accepted set is exactly the prompts told that the agent was invoked. |
| `OmpPrompts.FrameIsCorrelated` | crates/sentinel-omp/src/lib.rs:663-702 | A frame answers its own waiting prompt with the outcome it carries, touches no other prompt, and records a late error only for an accepted one. |
| `OmpPrompts.CallersExactly` | crates/sentinel-omp/src/lib.rs:437-478 | A new prompt waits under the next number, and one that times out waits no longer. |
| `OmpPrompts.FrameExactly` | crates/sentinel-omp/src/lib.rs:663-702 | Everything a frame does to the waiting, accepted and answered prompts and the late error. |
| `OmpPrompts.UnhealthyForever` | crates/sentinel-omp/src/lib.rs:479-482 | Once an accepted prompt has failed the process stays unhealthy. |
| `OmpPrompts.DrainAnswersAll` | crates/sentinel-omp/src/lib.rs:644-647 | The end of the output answers everyone waiting, each once, with an unexpected exit. |
| `OmpPrompts.RpcState.SettleResponse` | crates/sentinel-omp/src/lib.rs:663-688 | A response has exactly the specified effect. |
| `OmpPrompts.RpcState.SettlePromptResult` | crates/sentinel-omp/src/lib.rs:689-702 | A prompt result has exactly the specified effect. |
| `OmpPrompts.RpcState.DrainPending` | crates/sentinel-omp/src/lib.rs:644-647 | The drain empties the table in an arbitrary order. |
| `OmpSessions.OneSession` | crates/sentinel-omp/src/lib.rs:703-745 | In every interleaving all calls that return a session return the same one. |
| `OmpSessions.ReturnsExactly` | crates/sentinel-omp/src/lib.rs:703-745 | A call returns the recorded session at either look, an error if storing or announcing fails, and else the session it recorded. |
| `OmpSessions.StoredOnce` | crates/sentinel-omp/src/lib.rs:703-745 | At most one session is stored, unless a call is dropped between storing and recording it. |
| `OmpSessions.StoredExactly` | crates/sentinel-omp/src/lib.rs:703-745 | The sessions stored are the recorded one, one for each call dropped between storing and recording, and the one in hand. |
| `OmpSessions.StoredTwice` | crates/sentinel-omp/src/lib.rs:703-745 | A run that stores two sessions. |
| `EventView.ReconcileExact` | apps/desktop/src/phase2.ts:49-53 | A live event of any run is shown in its place unless its number is shown already or the view is of another run; an empty view takes any event. |
| `EventView.MergeRunEvents` | apps/desktop/src/phase2.ts:55-60 | The merge is strictly sorted, of the one run, and shows for each number the stored event if there is one and else the one shown before. |
| `EventView.LastOfExactly` | apps/desktop/src/phase2.ts:55-60 | The stored event that counts for a number is the last one of the run with it. |
| `EventView.MergedExactly` | apps/desktop/src/phase2.ts:55-60 | A merge shows the last stored event of a number, and what was shown before only if none is stored. |
| `EventView.ViewsInOrder` | apps/desktop/src/phase2.ts:49-60 | Along any mix of live events of any run and stored updates the view is sorted, without duplicates and of one run, and that is the displayed run exactly if no event of another run has met an empty view since the last merge. |
| `EventView.StoredEventsWin` | apps/desktop/src/phase2.ts:54-60 | The stored events of the latest merge keep their numbers against all later live events of any run. |
| `EventView.ViewIsUnion` | apps/desktop/src/phase2.ts:49-60 | If copies agree and no event of another run meets an empty view, the view holds exactly the delivered events of the run. |
| `EventView.ViewsConverge` | apps/desktop/src/phase2.ts:49-60 | Such histories that deliver the same events, in any order and by any mix of updates, end in the same view. |

## Left out

- Processes, signals, deadlines and clocks: a timeout is a step that may happen at any time, a time stamp a parameter.
- SQLite, its transactions' failures and the migrations: a statement or transaction is one atomic step on maps, and only the constraints that the statements rely on are modelled.
- JSON, Unicode normalisation, `git hash-object` and the file system: function parameters, so each result holds for all of them.
- The wrap-around of 64-bit request ids, sequence numbers and byte counters: numbers are unbounded.
- Codex side channels: rate-limit publication, model rerouting and the payloads of notifications.
- The bound of the command channel: it only makes senders wait, and results hold without it.
- The kinds of parser errors in the Git parsers: every caller of them maps all kinds to one error.
- `GitInspection.InspectChanges`: the identity checks of the repository before and after an inspection, and that its HEAD is the expected commit.
- Windows path rules, the porcelain-v2 status parser, numstat and filter attributes, and the removal of worktrees.
- `GitWorktree.CollectWorktreeChanges`: the repeated lookup-path check before each file access is not a separate branch, because an accepted index path already passed it.
- `GitThreeWay.InventoryIsDifference`: which of "modified" and "type-changed" git prints for a staged change is git's choice and is not fixed.
- The text of summaries, progress and failure categories of run contexts, and list queries of approvals: columns that no guard reads.
- `ApprovalTables.ApprovalStore.CreateApproval`: the case without a step between its checks, which are made outside the transaction, and the insert; `CheckApproval` and `FileApproval` are the two halves, and `Approvals` lets any step come between.
- HTTP requests, headers, credentials and error bodies of the chat provider, and the parsing of a completion that is not streamed; only its event numbers are modelled.
- Interleaving of a cancelled stream with a half-read chunk: the stream ends between chunks.
- The provider, the tools and cancellation of the agent loop are arbitrary functions of round and position; the wall-clock time of a round is not modelled.
- The OMP reader's line limits and event kinds, model discovery, and the process start of OMP.
- Run-history rows of the desktop, sanitising regular expressions, and all user interface code.
- The Claude and Gemini wrappers, usage reporting and the thin provider variants.
- Fixture generation, packaging and the other crates of the repository.
