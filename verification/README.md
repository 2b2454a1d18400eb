# specd, verified

specd is a file-based workflow engine. Changes to a specification are planned, approved, worked
through task by task, proven by recorded runs, reconciled into the accepted documents, and
archived. Everything lives in files: one state file per change, two append-only ledgers shared
by all of them, and documents people edit. What the engine promises is that no crash, retry or
edit can make these files disagree in a way nobody notices.

This project models the parts that carry that promise and proves it of the model. `dafny verify
dfyconfig.toml` checks all of it.

## What is here

| part | modules | after |
|---|---|---|
| write-ahead transactions | `Transactions`, `CrashDisk`, `Unfinishable` | core/transaction |
| the ledger | `Records`, `Ledger` | core/record, core/report |
| one change's life | `Lifecycle`, `Approvals`, `Proofs` | core/approval_status, core/complete |
| all changes on one root | `Roots`, `Authority`, `Operations`, `Harness`, `Bridge`, `Chronicle`, `Admission`, `Resumption` | core/attempt, complete, approve, reopen, sync, archive, friction; cmd/dispatch |
| completers side by side | `Completers` | core/complete, core/record/append |
| tasks, waves, readiness | `Graphs`, `Search`, `TaskGraphs`, `PlanWaves`, `Readiness`, `Outcomes`, `Progress` | core/taskgraph, plan/tasks, core/readiness |
| accepted documents | `Markdown`, `Scanners`, `Grammar`, `Accepted`, `Reconcile`, `Rescan`, `SpecSync`, `OpenFences`, `Deltas` | plan/sections, plan/deltas, reconcile |
| the managed guidance region | `Managed` | generate/managed |

Code that changes state is a class or a method with loops and is proved against a function or a
relation on values; the theorems are about those. `CrashDisk.Disk` and `Harness.Writer` carry a
field `power`: the number of durable steps left before the machine stops. A method that runs out
of it returns `Crashed` and leaves whatever is on disk at that point. Because `power` is
arbitrary at the start of every call, a contract about `Crashed` speaks of a crash between any
two steps, recovery included.

## How the pieces fit

- `Transactions.Settled` says what a disk will look like when recovery has finished: the
  journal's full effect if there is a journal, the disk without its staging leftovers if there
  is none. A commit changes it once, when the manifest is written, and nothing in replay or
  recovery changes it, so every crash leaves all or nothing.
- `Roots.Inv` ties every state file to the history. `Roots.Timeline` is a change's transitions
  with a pending journal's record counted last; the state is the fold of a prefix of it, and at
  most one record is waiting. Every method of `Harness.Writer` keeps `Inv`, crashes included.
  `Inv(root)` and `Roots.EventSourced` together give the three cases the status reader
  distinguishes.
- Every operation of `Harness.Writer` has an exact refusal condition (`o.Refused? <==> !May…`),
  its whole new state when done, and the two states a crash can leave. The `May…` predicates are
  written over the invariant's vocabulary (`Authorizes`, `Waiting`, `ReadyTask`), not over the
  scans the code does; the lemmas in `Authority` and `Operations` connect the two.
- `Chronicle`, `Admission` and `Resumption` say the same once more without any of these names:
  every field of a state file in terms of the records before it, every admission in terms of the
  two ledgers and the world, every record written field by field, and which request may finish a
  record that an interrupted one left. Whatever the vocabulary of the writers hides, these pin.
- `Bridge` joins the two models of recovery: the manifest of a lifecycle commit is one the disk
  can finish, and wherever the commit stops, what the disk settles to represents what the root
  recovers to.
- `Progress` puts the writers' admission conditions together: on an approved change work always
  goes on, and ends after one completion for each task.
- `Graphs` states acyclicity, topological orders, deadlocks and longest chains once. Both cycle
  checks and both wave computations are proved against it, so their agreement is a corollary.
- `Markdown.Pieces` cuts a document at its headings of level three or less; `End` is the fence
  state at its end. Both scanners are proved to compute it, and the rewriter's edits are proved
  on the cut rather than on offsets. `Grammar` says on characters which lines open and close a
  fence, are a heading, or name a requirement, and what an edit leaves of a block.

## Assumptions

- A hash is the value hashed; hashing is thereby injective. Record and evidence identities are
  opaque strings. Appends refuse repeated ones; sync and archive name their record by its
  content, and that name is assumed new.
- The codec round-trips, writes no newline inside an encoding, and no strict prefix of an
  encoding is complete JSON (`Ledger.Lawful`).
- A manifest has at most one move. Output paths are unrelated to each other and to the move's
  destination (`Transactions.ValidManifest`). Directory creation and atomic replacement are one
  step each, and a replacement that reports an error has not happened.
- Managed files change only through the harness. Writer calls on one root are serialised, each
  begins with recovery, and they start from created changes (`Roots.CreateKeeps`). Completers
  alone are interleaved step by step (`Completers`).
- Folding a requirement's name never erases a name that is not blank (`Deltas.Folding`).
  Documents are sequences of characters with Unicode white space.
- Verdicts from elsewhere are arguments: planning gates, changed paths in scope, whether the
  reconciliation applies, whether accepted outputs have drifted, whether the archive destination
  is vacant, parser diagnostics, and the world an invocation finds (authored plan, registry,
  policy, HEAD).

## What the code does not give

Each of these is stated and proved as the code has it, with an input that shows it and the exact
condition under which it does not happen.

- A crash while a ledger line is being written leaves a torn tail. Recovery then refuses until
  the file is repaired: exactly when a journal that binds a record meets a torn file
  (`CrashDisk.Disk.Recover`, `Unfinishable.TornLineBlocks`). Repairing it loses nothing
  (`CrashDisk.RepairKeeps`).
- `commitLocked` writes the manifest before it looks at the move or at the record's place in the
  revision chain. If the destination is occupied, or the source is a file or is missing, or the
  record is out of its chain, the transaction is committed and can never finish
  (`Unfinishable.ImpossibleMoveDooms`, `Unfinishable.BrokenChainDooms`). `CrashDisk.Doable` is the
  exact condition under which a commit completes, and it can be checked before the call. Its
  part about the move, `CrashDisk.Movable`, has two cases besides the plain one: an output inside
  a missing folder creates the folder; and a missing source with something at the destination
  counts as moved, so that nothing is moved and the commit completes if what belongs to the
  folder is already new there. Archive checks the plain case itself, and lifecycle commits are
  always in their chain (`Authority.NothingWaits`, `Bridge.CommitIsInChain`).
- A friction record written after a start makes every completion of that attempt refuse, for
  good (`Operations.FrictionStopsCompletion`; `Progress.FrictionWitness` is such a case). The
  history check passes exactly when no record of the change follows the attempt's
  (`Harness.Writer.AttemptIsTail`), and only a reopen ends the attempt otherwise
  (`Operations.OnlyReopenIsLeft`).
- Two deltas that nothing reports on do not have their effect. A requirement renamed to an empty
  name disappears (`Deltas.LostRename`). An addition behind a fence that the text before the
  insertion point leaves open becomes fenced text (`Deltas.HiddenRequirement`). A sync leaves
  the requirement list it should if and only if no rename is to nothing and nothing is added
  behind an open fence (`OpenFences.SyncExactly`). `Rescan.FrontEnd` reads that fence off the
  accepted document: it is open only if the document leaves a fence open in its last section and
  that section comes last before the insertion point, neither removed nor replaced.

## Model

| member | source | states |
|---|---|---|
| CrashDisk.Disk.RunThenRecover | internal/core/transaction/transaction.go:284-592 | After any run of commits and recoveries, each cut short anywhere, an uninterrupted recovery leaves a clean disk that is exactly the old one with the whole effect of some of the transactions, in order, and nothing of the others; with enough steps it can only finish or be refused, and it is never refused if every record was next in its chain when its turn came. |
| CrashDisk.Disk.Run | internal/cmd/dispatch.go:154-172 | Any sequence of requests, each stopped after any number of steps, keeps the disk invariant and settles to the whole effects of the requests that passed their commit point; the disk is doomed only by a record out of its chain. |
| CrashDisk.Disk.Serve | internal/core/archive.go:153-208 | One request that looks at its move first, as archive does, takes effect as a whole or not at all and never wedges the disk; a record out of its chain, which nothing checks here, is all that can doom it. |
| CrashDisk.Disk.Recover | internal/core/transaction/transaction.go:571-592 | Recovery never changes what the disk settles to, nor whether it is doomed; it finishes exactly on disks that are neither doomed nor blocked by a torn line, and leaves no journal, no stage and exactly the settled contents; stopped anywhere it can be run again. |
| CrashDisk.Disk.Commit | internal/core/transaction/transaction.go:284-355 | For every manifest, whatever is at the ends of its move: the settled contents stay or become the manifest's full effect unless the move cannot be done; the commit completes only if the manifest was doable and is refused only if it was not, or the ledger was torn or a doomed journal stood in the way. |
| CrashDisk.Disk.CommitChecked | internal/core/transaction/transaction.go:318-355 | The same from a clean disk: two outcomes and no third, and a disk that can never finish arises only from a move that cannot be done or a record out of its chain. |
| CrashDisk.Disk.Stage | internal/core/transaction/transaction.go:318-332 | Staging touches nothing but the manifest's own stage, and when done the stage holds every output's new bytes. |
| CrashDisk.Disk.CheckSources | internal/core/transaction/transaction.go:292-316 | Accepted exactly when every output holds its old or its new bytes, and reported as nothing to do exactly when all hold the new ones. |
| CrashDisk.Disk.Apply | internal/core/transaction/transaction.go:360-426 | Replaying a committed manifest from any intermediate disk keeps its final contents fixed, cannot be refused except where it was doomed when the manifest was written or a torn line blocks it, and when done leaves exactly those contents. |
| CrashDisk.Disk.ApplyOutputs | internal/core/transaction/transaction.go:363-405 | Replaying the outputs of an in-flight transaction is never refused, installs every one of them, and is idempotent over any partial earlier replay. |
| CrashDisk.Disk.InstallOutput | internal/core/transaction/transaction.go:364-404 | One output, wherever the replay was interrupted, before or after the move: afterwards the location its path now has holds the new bytes, and the transaction's final contents are unchanged. |
| CrashDisk.Disk.ApplyMove | internal/core/transaction/transaction.go:431-473 | With all outputs installed the move is done once and repeated harmlessly; it is refused in every case where it cannot be done, whatever else has happened to the tree since the commit. |
| CrashDisk.Disk.AppendBoundRecord | internal/core/transaction/transaction.go:478-492 | Done means the record is in the ledger, whether this run or an earlier one appended it; refusal means the ledger did not admit it or has a torn line. |
| CrashDisk.Disk.Cleanup | internal/core/transaction/transaction.go:414-425 | The manifest goes before the stage, so a crash in between leaves either the whole journal or only stage leftovers that settle to the same disk. |
| CrashDisk.Disk.RemoveStage | internal/core/transaction/transaction.go:422-424 | Removing a stage changes no other part of the disk, however far it gets. |
| CrashDisk.CommitPoint | internal/core/transaction/transaction.go:337-350 | Writing the manifest after staging turns a clean disk into one that settles to the full effect, and decides at that moment whether the transaction can ever finish. |
| CrashDisk.RepairKeeps | internal/core/record/append.go:66-69 | Repairing a torn ledger line changes neither the invariant nor what the disk settles to, and removes the only thing that can block a sound journal. |
| CrashDisk.NothingToDo | internal/core/transaction/transaction.go:312-316 | Skipping a commit whose outputs all hold their new bytes, with no move and no record, is what committing it would have left. |
| Unfinishable.TornLineBlocks | internal/core/record/append.go:66-69 | A disk on which a doable transaction is committed and blocked by a torn line, and after the repair settles to its whole effect. |
| Unfinishable.ImpossibleMoveDooms | internal/core/transaction/transaction.go:440-456 | A valid manifest with acceptable sources and its record in its chain, whose destination is occupied, or whose source is a file, or missing with nothing at the destination: not doable, and the disk that commits it is doomed. |
| Unfinishable.BrokenChainDooms | internal/core/record/append.go:74-91 | A valid manifest with acceptable sources whose record is out of its chain: not doable, and the disk that commits it is doomed, not wedged. |
| Transactions.WholeEffect | internal/core/transaction/transaction.go:360-426 | The final contents mean what they should: every output at its path, followed through the move, holds its new bytes, every other file has its old bytes where the move takes it, and nothing is left at the move's source. |
| Transactions.EffectWithoutMove | internal/core/transaction/transaction.go:443-444 | Where the move counts as done already, nothing is moved: outputs that have nothing to do with the folder hold their new bytes, and every other file its old ones where it was. |
| Transactions.BoundRecordOnce | internal/core/transaction/transaction.go:478-492 | In the final contents the ledger still replays, extends the old one, and holds the bound record's identity exactly once. |
| Transactions.LocateBeforeMove | internal/core/transaction/transaction.go:497-517 | Until the destination exists, an output's location is its own path, so replay before the move never writes anywhere else. |
| Transactions.ReplaceOutput | internal/core/transaction/transaction.go:380-398 | Replacing one output keeps the transaction in flight with the same final contents, installs that output and leaves every other output's status as it was. |
| Transactions.MkdirForOutput | internal/core/transaction/transaction.go:393-395 | Creating an output's directories moves no output between staged and installed and keeps the transaction in flight. |
| Transactions.MoveFolder | internal/core/transaction/transaction.go:460-465 | Once all outputs are installed, renaming the folder keeps every one of them installed at its new location and the final contents unchanged. |
| Transactions.AppendKeepsFinal | internal/core/transaction/transaction.go:478-492 | Appending the bound record is invisible to the final contents, the tree and the status of every output. |
| Transactions.OnlyCleanupLeft | internal/core/transaction/transaction.go:411-425 | With outputs, move and record in place, the final contents differ from the disk only by the journal, the stage and a torn line. |
| Ledger.Replay | internal/core/record/record.go:700-750 | The one-pass reader with its id set and chain-head map decides the same as checking each record against the whole list before it, and reports a torn tail rather than a record. |
| Ledger.ReplayIsSound | internal/core/record/record.go:700-750 | Whatever bytes replay accepts, the records it returns are valid, of one family, without repeated identities, and contiguous in every change. |
| Ledger.ReplayDecidesWellFormed | internal/core/record/record.go:700-750 | The bytes of a list of records replay to that very list if and only if the list is well formed. |
| Ledger.TornWrite | internal/core/record/record.go:700-750 | For every byte prefix of a well-formed ledger: exactly the records whose lines are complete, with a torn-tail flag when bytes remain, or a refusal when the tail lacks only its newline. |
| Ledger.WellFormedExtends | internal/core/record/record.go:722-748 | One more record keeps a ledger well formed if and only if it is valid, of the family, new, and next in its change's chain. |
| Ledger.LedgerFile.Append | internal/core/record/append.go:31-117 | An append adds exactly one encoded line, or refuses and leaves every byte as it was; a write that fails leaves the bytes it could not cut back and no others. |
| Ledger.LedgerFile.FindDuplicate | internal/core/record/append.go:70-74 | True exactly when some record has the identity. |
| Ledger.LedgerFile.LastOf | internal/core/record/append.go:75-91 | The backward scan finds the revision the change's latest transition resulted in. |
| Ledger.FailedAppendReplays | internal/core/record/append.go:107-115 | What a failed append leaves replays as the old records with a torn tail, except for nothing, the whole line, or all but its newline; no earlier record is touched. |
| Ledger.AppendAgreesWithReplay | internal/core/record/append.go:56-91 | Append accepts a record if and only if replay accepts the ledger extended by it. |
| Ledger.ContiguousRun | internal/core/record/record.go:741-746 | In an accepted ledger the k-th transition of a change starts exactly k revisions after its first. |
| Ledger.CollectEvents | internal/core/report/model.go:411-452 | On an accepted history the reader collects exactly the change's transitions, and its own duplicate and validity checks never fire. |
| Ledger.Events | internal/core/report/model.go:405-468 | On an accepted history the reader returns the transitions in ledger order, refusing exactly those that do not start at revision 0; sorting never reorders and never finds an ambiguity. |
| Ledger.SortLeavesIncreasing | internal/core/report/model.go:453-455 | Sorting events whose revisions already increase is the identity. |
| Lifecycle.LegalKeepsConsistent | internal/core/complete.go:551-583 | Every record the writers may write keeps the state consistent: at most one attempt, in-progress tasks are the attempted ones, completed tasks are the bound ones and closed under the approved plan's dependencies. |
| Lifecycle.RunsAreConsistent | internal/core/reopen.go:191-203 | The same for every legal run, across reopens and approvals of edited plans, with the revision counting the records. |
| Lifecycle.ApprovedSince | internal/core/approval_status.go:157-211 | An approved change has a latest approval in its history, it is the one its state ends with, and only task work follows it. |
| Chronicle.FoldIsRead | internal/core/reopen.go:191-203 | Every field of every reachable state from its records alone: all approvals ever granted, in order, reopened or not; the stage of the latest record that is not task work; the attempt the last record starts; exactly the completions no reopen has set back, each with its attempt, evidence and record. |
| Chronicle.StateFileIsRead | internal/core/approve.go:262-276 | The same of every state file on every reachable root, crashes and pending journals included. |
| Chronicle.CompletionsAreRead | internal/core/complete.go:551-583 | A task is bound exactly when some completion of it has not been set back, there is one such record, and the binding is that record's attempt, evidence and identity. |
| Chronicle.SyncNamesTheWork | internal/core/sync.go:400-408 | A sync record names the plan approved last before it, has exactly the tasks of that plan as keys of its evidence set, and gives each the evidence of the completion that stands. |
| Chronicle.SyncIsProven | internal/core/sync.go:343-408 | On every reachable root, each evidence that any sync ever named is a recorded, passing run of that task, made at the HEAD, for the contract and command and under the plan that the completed attempt fixed. |
| Chronicle.CompletionWasProven | internal/core/complete.go:216-236 | Behind every completion there is a passing run of its change, task and attempt at the attempt's HEAD, contract, command, approved plan and at the revision completed. |
| Approvals.Latest | internal/core/approval_status.go:213-234 | The backward scan returns the last record of the change and kind, optionally at a given revision. |
| Approvals.FindLastIsLatest | internal/core/approval_status.go:213-234 | What the scan finds matches, and no later record does; if it finds nothing, nothing matches. |
| Approvals.TailCurrent | internal/core/approval_status.go:157-211 | The walk over the records after the approval decides as its recursive specification does. |
| Approvals.CurrentMeansAuthorized | internal/core/approval_status.go:157-211 | Whenever the walk accepts, the records from the approval to the state's revision are contiguous task work of the change ending at its last transition, followed by at most a waiting one. |
| Approvals.WalkDecides | internal/core/approval_status.go:157-211 | On a sequenced history the walk accepts if and only if every transition after the approval, a waiting one included, is task work. |
| Authority.CurrentExactly | internal/core/approval_status.go:63-138 | On every reachable root the projection never errs and reports an approval current if and only if the state rests on it, the authored plan, registry and policy are the approved ones, and no reopen waits. |
| Authority.TailExactly | internal/core/reopen.go:82-117 | For an approved change the tail check a reopen makes fails exactly when a waiting record is not task work. |
| Authority.ScanFindsWaiting | internal/core/attempt.go:450-471 | The backward scans for a record left by an interrupted run find exactly the waiting record of that kind. |
| Authority.NothingWaits | internal/core/sync.go:111-168 | Whenever sync or archive may commit, no append-first record waits: an attempt or completion would mean an unfinished task, a reopen a revoked approval. |
| Authority.BoundEvidenceIsKnown | internal/core/archive.go:244-267 | On every reachable root, all evidence that completed tasks are bound to is in the evidence ledger. |
| Authority.AttemptIsLast | internal/core/scope.go:222-262 | An attempt in progress is the change's last persisted transition. |
| Authority.ReconcilingEndsWithSync | internal/core/archive.go:98-136 | A reconciling change ends with a sync record that fixed the approved plan and the evidence set archive compares with. |
| Roots.EventSourced | internal/core/report/model.go:500-525 | In every reachable state the state file is the fold of a prefix of the timeline; the reader answers agreement, history ahead, or refusal exactly when the ledger's tail equals the revision, is one ahead with an append-first record, or one behind with a journal binding precisely the missing record. |
| Roots.StatesAreConsistent | internal/core/complete.go:149-179 | Every reachable state file is consistent and its last transition is the record its revision counts to. |
| Roots.CreateKeeps | internal/cmd/transaction.go:135-150 | A new change's first record and first state keep the invariant, with that record as its whole timeline. |
| Roots.AppendKeeps | internal/core/attempt.go:214-236 | Appending first puts the ledger one waiting record ahead and keeps the invariant. |
| Roots.PersistKeeps | internal/core/attempt.go:507-525 | Persisting the waiting record makes the state the fold of the whole timeline. |
| Roots.ObservationKeeps | internal/core/friction.go:160-170 | A record without a revision leaves every change's timeline alone. |
| Roots.EvidenceKeeps | internal/core/evidence/evidence.go:120-136 | More evidence keeps every completion proven and every run consumed at most once. |
| Roots.JournalKeeps | internal/core/sync.go:203-228 | A manifest binding the one record its change lacks keeps the invariant; the timeline grows at that moment. |
| Roots.InstallKeeps | internal/core/transaction/transaction.go:363-405 | Installing the journal's state is invisible to the timeline and keeps the invariant. |
| Roots.BoundRecordFits | internal/core/record/append.go:74-91 | Roll-forward is never blocked at its record: while a journal is pending and its record is not appended, the ledger accepts it. |
| Roots.BindKeeps | internal/core/transaction/transaction.go:411-413 | Appending the bound record after the state is installed keeps the invariant. |
| Roots.ClearKeeps | internal/core/transaction/transaction.go:417-421 | Dropping the manifest after that leaves state and history level. |
| Proofs.LatestCompletionEvidence | internal/core/complete.go:432-469 | A misfiled run or an unreadable class anywhere refuses; otherwise the newest run of the subject, only if it passed, other classes of evidence passed over. |
| Proofs.NewestRunIsLast | internal/core/complete.go:432-469 | The newest run is a run of the subject and no later record is. |
| Proofs.AlreadyConsumed | internal/core/complete.go:538-549 | True exactly when a completion of any change in the history names the evidence. |
| Operations.FitsExactly | internal/core/record/append.go:66-91 | A record for the state's own revision is accepted by the ledger if and only if nothing waits and its identity is new. |
| Operations.FactsMean | internal/core/sync.go:343-380 | On a reachable root no bound evidence is ever stale, and under current approval the facts are clean exactly when every task is completed. |
| Operations.SyncIsLatest | internal/core/sync.go:310-335 | The latest sync record of a reconciling change is the one its state rests on, so repeating a sync compares with the right one. |
| Operations.WaitingCompletionIsProven | internal/core/complete.go:394-430 | A completion waiting to be persisted is backed by recorded passing evidence and its task is not yet bound. |
| Operations.CanonicalTask | internal/core/attempt.go:270-277 | In a sound plan a row is found exactly for its tasks. |
| Operations.FrictionStopsCompletion | internal/core/scope.go:222-262 | Once friction is recorded during an attempt, no completion of the change is admitted, whoever asks and whatever is proven, and no later ledger makes the attempt's record the tail again. |
| Operations.OnlyReopenIsLeft | internal/core/reopen.go:65-73 | While an attempt is open, no other record than its completion or a reopen may come next. |
| Progress.FrictionWitness | internal/core/friction.go:128-170 | A root on which a proven task would be completed, a task that waits for it may be the subject of friction, and after that record the first can no longer be completed. |
| Progress.WorkContinues | internal/core/readiness.go:309-330 | On an approved change that nobody is working on, as long as a task is not completed, one can be started, and with a passing run completed. |
| Progress.WorkCompletesOne | internal/core/complete.go:551-583 | A start, a passing run and a completion leave the change idle and authorized, with exactly that task completed besides. |
| Progress.WorkFinishes | internal/core/readiness.go:156-177 | Every run of starts and completions on such a change can be continued as long as a task remains, and finishes the plan after exactly one completion for each task that remained. |
| Admission.AuthorizedExactly | internal/core/approval_status.go:157-211 | A change is authorized exactly when a persisted record approves the very plan, registry and policy that are there now, and all its later transitions, a waiting one included, are starts and completions. |
| Admission.StartAdmitted | internal/core/attempt.go:57-168 | With nothing waiting, a start is admitted exactly when the ledger shows such an approval and no attempt at its end, and the plan has a row whose task is not completed and whose dependencies all are; revision, HEAD and actor included. |
| Admission.StartWrites | internal/core/attempt.go:188-201 | The record it appends, field by field: the HEAD, row and plan that are there, the revisions, the actor, and a guard that holds exactly the approvals and completions of the ledger. |
| Admission.GuardCovers | internal/core/attempt.go:241-268 | Two states have the same guard if and only if they agree on everything but revision, last transition and the one task. |
| Admission.CompletionAdmitted | internal/core/complete.go:139-236 | With nothing waiting, a completion is admitted exactly when the change's last record of any kind starts this task at the HEAD that is there, under an approval of what is there, every evidence record is readable and filed under its own change, and the newest run with the attempt's change, task, HEAD, contract, command, approved plan and revision passed and is consumed by no completion. |
| Admission.CompletionWrites | internal/core/complete.go:252-269 | The record it appends names that run, the attempt, and the two revisions. |
| Admission.ApprovalAdmitted | internal/core/approve.go:91-106 | With nothing waiting, an approval is admitted exactly when the gates pass and the latest record that is not task work left the change planning. |
| Admission.ApprovalGrants | internal/core/approve.go:160-182 | The record it appends, field by field, and what it grants: from then on the change is authorized in exactly the worlds with that plan, registry and policy. |
| Admission.ReopenAdmitted | internal/core/reopen.go:60-105 | With nothing waiting, a reopen with actor, reason and HEAD is admitted exactly on an approved change at the expected revision. |
| Admission.ReopenWrites | internal/core/reopen.go:97-105 | The record it appends revokes the latest approval and the attempt at the end of the ledger, if one is there, and carries the request's reason and HEAD. |
| Admission.SyncAdmitted | internal/core/sync.go:125-172 | A sync is admitted exactly when nothing waits and the ledger shows, under an approval of what is there, a standing completion of every task of the plan. |
| Admission.SyncWrites | internal/core/sync.go:190-202 | The record it commits: approver and plan as they are, and for exactly the tasks of the plan the run each was completed with, recorded and passed. |
| Admission.ArchiveAdmitted | internal/core/archive.go:90-162 | An archive is admitted exactly when the change's ledger ends with a sync of the plan that is there, nothing drifted and the destination is vacant. |
| Admission.ArchiveWrites | internal/core/archive.go:171-177 | The record it commits names that sync record and its approver. |
| Admission.FrictionAdmitted | internal/core/friction.go:92-160 | With nothing waiting, friction is admitted exactly for a task of the authored plan that no current approval covers or that waits for a dependency; its record names the task and the revision seen. |
| Harness.Writer.Recover | internal/core/sync.go:280-290 | Lifecycle recovery is never refused; stopped anywhere it keeps the invariant and its own outcome, and done it leaves state, record and no manifest. |
| Harness.Writer.Commit | internal/core/sync.go:203-231 | A sync or archive commit is never refused once its record is legal; a crash leaves the old root or one that recovers to the new one. |
| Bridge.CommitIsInChain | internal/core/sync.go:200-231 | On the disk the record of such a commit is next in its chain or already there, so it never dooms the disk. |
| Bridge.CommitRefines | internal/core/archive.go:192-208 | On a disk that represents the root, with the other sources undrifted and the destination vacant, the manifest is doable, and its final contents represent the root the commit ends in, the state files followed through the move. |
| Bridge.CommitOnDisk | internal/cmd/dispatch.go:163-172 | Recovery and then the commit on the disk, stopped anywhere: what the disk settles to represents what the root recovers to, the root being the one before the manifest or the one that holds it. |
| Bridge.SyncFits | internal/core/sync.go:168-228 | The manifest of a sync meets all this as soon as its documents have not drifted. |
| Bridge.ArchiveFits | internal/core/archive.go:149-205 | The manifest of an archive meets all this as soon as its folder is there and the destination vacant. |
| Harness.Writer.InstallState | internal/core/transaction/transaction.go:363-405 | Installs the journal's state or finds it installed; nothing else changes and what recovery leads to stays fixed. |
| Harness.Writer.AppendBoundRecord | internal/core/transaction/transaction.go:478-492 | Appends the bound record or finds it appended; it is never refused and no state file changes. |
| Harness.Writer.Edited | internal/core/complete.go:551-583 | The field-by-field edits of all four persist functions give the state that the fold of the history says; `Chronicle.FoldIsRead` says what that is. |
| Harness.Writer.Persist | internal/core/approve.go:262-276 | The state file catches up with the waiting record in one step, or nothing happens. |
| Harness.Writer.AppendAndPersist | internal/core/attempt.go:214-236 | Refused exactly when a record waits or the identity is taken; a crash leaves the old root or the appended record alone. |
| Harness.Writer.Finish | internal/core/approve.go:145-188 | A matching waiting record is finished, a foreign one refuses, and otherwise a new one is written; the `Resumption` lemmas say which fields must match. |
| Harness.Writer.Start | internal/core/attempt.go:57-239 | Refused exactly when the change, revision, task, approval, frontier, open attempts or a foreign waiting record forbid it; done it leaves the attempt as record and state, stopped it leaves the root or the record alone. |
| Harness.Writer.Admit | internal/core/attempt.go:118-168 | The canonical row, the current approval and the frontier together admit exactly the ready tasks of an authorized change. |
| Harness.Writer.OpenAttempt | internal/core/attempt.go:94-116 | True exactly when some attempt bound to the state is not yet completed. |
| Harness.Writer.Canonical | internal/core/attempt.go:270-277 | The first row of that id. |
| Harness.Writer.Approve | internal/core/approve.go:76-191 | Refused exactly when stage, gates, plan or a foreign waiting record forbid it; done, the approval covers the authored plan at the next revision. |
| Harness.Writer.Reopen | internal/core/reopen.go:33-140 | Refused exactly when stage, revision, approval or a foreign waiting record forbid it; done, tasks, attempts and completions are gone, the approval is revoked, and every approval stays on record (`Chronicle.FoldIsRead`). |
| Harness.Writer.RevokedAttempt | internal/core/reopen.go:155-173 | On a reachable root the search never fails and names exactly the attempt in progress. |
| Harness.Writer.Complete | internal/core/complete.go:69-303 | A waiting completion is finished; otherwise refused exactly when attempt, scope, approval, history tail or evidence forbid it; done, the newest passing run is consumed and bound; `Admission.CompletionAdmitted` says which run that is. |
| Harness.Writer.BoundToEvidence | internal/core/complete.go:394-430 | The check on a waiting completion's evidence always succeeds on a reachable root. |
| Harness.Writer.CheckAttempt | internal/core/complete.go:139-205 | Accepts exactly the attempts that still match state, row, approved plan, HEAD and history tail. |
| Harness.Writer.AttemptIsTail | internal/core/scope.go:222-262 | Accepts exactly when no record of the change, not even a friction record, follows the attempt's. |
| Harness.Writer.Friction | internal/core/friction.go:65-175 | Adds one record without a revision for a stopped task and moves no state; refused exactly otherwise. |
| Harness.Writer.Observable | internal/core/friction.go:255-263 | True exactly for declared tasks that approval, a dependency or their own activity holds up. |
| Harness.Writer.Sync | internal/core/sync.go:111-239 | Refused exactly unless the change is authorized, finished and applicable, or already synced without drift; done, state and record are level; a crash recovers to nothing or all. |
| Harness.Writer.ProofFacts | internal/core/sync.go:343-380 | Collects exactly the incomplete tasks and the completed ones whose bound evidence is missing. |
| Harness.Writer.Archive | internal/core/archive.go:85-216 | Refused exactly unless the change is synced, unchanged since, undrifted and its destination vacant; a crash recovers to nothing or all. |
| Harness.Writer.MissingEvidence | internal/core/archive.go:244-267 | On a reachable root the guard never finds anything missing. |
| Harness.Writer.IncompleteTasks | internal/core/archive.go:269-285 | Collects exactly the recorded tasks that are not completed. |
| Harness.Writer.Observe | internal/core/evidence/evidence.go:120-136 | Adds one run to the evidence and touches neither history nor state. |
| Harness.Writer.Serve | internal/cmd/dispatch.go:154-172 | Recovery and then any operation, stopped after any number of writes, keeps the invariant and only extends the ledgers. |
| Harness.Writer.Dispatch | internal/cmd/dispatch.go:92-149 | Every handler, on any argument, keeps the invariant and only extends the ledgers. |
| Harness.Writer.Run | internal/cmd/dispatch.go:154-190 | Any run of invocations on any changes, crashes anywhere, keeps every state file event sourced. |
| Harness.StartResumes | internal/core/attempt.go:179-212 | The same start, asked again after a crash between its two writes, is admitted, appends nothing, and leaves what the uninterrupted one would have. |
| Harness.ApprovalResumes | internal/core/approve.go:242-260 | The same for an approval, which opens no frontier until it is persisted. |
| Harness.ReopenResumes | internal/core/reopen.go:175-189 | The same for a reopen, which revokes authority from the moment it is appended. |
| Harness.CompletionResumes | internal/core/complete.go:520-536 | A waiting completion is finished by any later request for its task, whatever has become of approval, HEAD or the working tree. |
| Resumption.StartResumption | internal/core/attempt.go:203-212 | With a record waiting, a start is admitted if and only if that record is a start by the same actor of the same task and row, at the same HEAD and under the same plan, whose approval stands. |
| Resumption.ApprovalResumption | internal/core/approve.go:145-159 | The same for an approval: the same approver, artifacts, registry and policy. |
| Resumption.ReopenResumption | internal/core/reopen.go:106-116 | The same for a reopen: the same actor, reason and HEAD; approval and attempt revoked are then the same too. |
| Resumption.CompletionResumption | internal/core/complete.go:122-137 | A completion finishes exactly a waiting completion of its task. |
| Completers.IdleIsGood | internal/core/record/append.go:22-29 | Any well-formed ledgers without a completion, with nobody at work, are a state every interleaving may start from. |
| Completers.StepKeepsGood | internal/core/record/append.go:22-43 | Every step of every process, crashes included, keeps the lock holder's view true and every recorded consumption justified. |
| Completers.RunKeepsGood | internal/core/complete.go:113-300 | The same for every interleaving. |
| Completers.ConsumptionIsCurrent | internal/core/complete.go:113-300 | A completion enters the ledger only from the lock holder, and then its run is the newest of its subject in the whole evidence ledger, passed, and unconsumed. |
| Completers.ConsumedOnce | internal/core/complete.go:538-549 | Over any interleaving with crashes and retries, no two completions name the same evidence. |
| Completers.ConsumedNewest | internal/core/complete.go:432-469 | Every completion, the first and an only one included, consumed a pass that was the newest run of its subject at that moment. |
| Graphs.OrderMeansAcyclic | internal/core/taskgraph.go:74-95 | A dependency-respecting order exists only on an acyclic graph. |
| Graphs.DeadlockHasNoOrder | internal/core/taskgraph.go:86-89 | A set of tasks each waiting for another of them rules out any order, so a stuck loop means a cycle. |
| Graphs.DeadlockMeansCyclic | internal/core/taskgraph.go:143-174 | Following what each such task waits for ends in a closed dependency walk. |
| Graphs.SomethingReady | internal/core/readiness.go:309-330 | In an acyclic plan with something left to do, some task waits for nothing that is left. |
| Graphs.LevelIsLongestChain | internal/core/taskgraph.go:97-109 | A number one above the highest of its dependencies is the length of the longest dependency chain. |
| Graphs.LevelsAgree | internal/plan/tasks.go:369-405 | Two such numberings of one graph are equal. |
| Search.DepthFirst.Run | internal/plan/tasks.go:322-364 | The three-colour search from every node reports a cycle if and only if there is one; what it reports is a closed dependency walk, and otherwise its finishing order respects every dependency. |
| Search.DepthFirst.Visit | internal/plan/tasks.go:325-349 | One visit finishes its node and everything below it in an order that only grows, or finds a closed walk. |
| Search.DepthFirst.FindOnStack | internal/plan/tasks.go:334-341 | The search for a gray node on the stack stays in bounds and finds its first place. |
| TaskGraphs.CheckRows | internal/core/taskgraph.go:36-48 | Accepts exactly named, valid, unique rows. |
| TaskGraphs.LinkRow | internal/core/taskgraph.go:62-71 | One row's dependencies are rejected exactly when one is missing or itself; otherwise the reverse edges count every dependency so far. |
| TaskGraphs.LinkDependents | internal/core/taskgraph.go:56-72 | Accepts exactly when every dependency is another declared task, and then dependents are the reverse of dependencies, occurrence by occurrence. |
| TaskGraphs.Decrement | internal/core/taskgraph.go:90-94 | After emitting a task every indegree again counts exactly the dependencies still open. |
| TaskGraphs.Kahn | internal/core/taskgraph.go:74-95 | Not stuck, the order is a permutation that respects every dependency; stuck, the tasks left are deadlocked. |
| TaskGraphs.NumberWaves | internal/core/taskgraph.go:97-109 | Every wave number is a longest-chain number, and the waves group the order by it. |
| TaskGraphs.BuildTaskGraph | internal/core/taskgraph.go:30-111 | A graph is built if and only if the plan is undiagnosed, declared and acyclic; a reported cycle is a closed walk; order, dependents and waves are right. |
| PlanWaves.CollectDeclared | internal/plan/tasks.go:263-270 | Every id maps to exactly the rows that declare it. |
| PlanWaves.RejectDuplicates | internal/plan/tasks.go:271-293 | A row stays valid exactly when no other valid row shares its id, and there is a diagnostic exactly when some row fell. |
| PlanWaves.RejectDependencies | internal/plan/tasks.go:294-313 | A row stays valid exactly when all its dependencies are other declared ids. |
| PlanWaves.InvalidateDependents | internal/plan/tasks.go:410-427 | The loop stops at the greatest set of valid rows whose dependencies are each declared once and in the set. |
| PlanWaves.GreatestUnique | internal/plan/tasks.go:410-427 | There is only one such set, so the order of rows does not matter. |
| PlanWaves.FindCycle | internal/plan/tasks.go:322-364 | The search over row numbers reports a cycle if and only if the ids have one, as a closed walk of rows. |
| PlanWaves.TakeLayer | internal/plan/tasks.go:378-396 | Filtering into the array being read loses and repeats nothing: the ready rows come out, the rest stays in order. |
| PlanWaves.Layers | internal/plan/tasks.go:369-405 | On an acyclic plan the layering loop places every task in its longest-chain layer, each layer in authored order. |
| PlanWaves.ProjectTaskWaves | internal/plan/tasks.go:261-408 | Without diagnostics the usable rows are declared and acyclic and the waves are their longest-chain layers; on a declared plan the only diagnostic possible is a cycle, given exactly when there is one, and then the valid rows are the greatest set that rests on none of the cycle. |
| PlanWaves.PlannerAgreesWithGraph | internal/core/taskgraph.go:97-109 | Planner and task graph number every task alike and their waves hold the same tasks. |
| Readiness.CheckActivities | internal/core/taskactivity.go:84-118 | Accepts exactly activities of known tasks. |
| Readiness.ProjectReadiness | internal/core/readiness.go:248-291 | Anything but an undiagnosed, declared, acyclic plan with known activities projects to the invalid model; any such plan to a faithful one, its frontier the pending tasks with completed dependencies under current approval. |
| Readiness.Assemble | internal/core/readiness.go:262-290 | The loop gives one row per authored task in order, the frontier of exactly the ready ones, and the first most severe blocker. |
| Readiness.FrontierIs | internal/core/readiness.go:309-330 | A task is in the frontier if and only if nothing global blocks, it is pending, and all its dependencies are completed. |
| Readiness.TaskRowIs | internal/core/readiness.go:103-110 | Looking up a task gives its own row, and only declared tasks have one. |
| Readiness.NeverWaitingOnDependency | internal/core/readiness.go:156-177 | With a valid plan and current approval the outcome is never waiting on a dependency; with only pending and completed tasks it is the frontier or all done. |
| Outcomes.RowExactly | internal/core/readiness.go:309-330 | What a task's row reports: waiting for approval exactly under a global blocker, and otherwise its state and blocker by its activity and its dependencies. |
| Outcomes.PrimaryExactly | internal/core/readiness.go:293-307 | Under current approval the primary blocker is a stopped task, else one in progress, else a completed one, else an open dependency. |
| Outcomes.OutcomeExactly | internal/core/readiness.go:156-177 | The classification for every stage and approval: waiting for approval without a current one, blocked by the lifecycle past approval, and otherwise frontier, all complete, or blocked by a task. |
| Readiness.RunsComplete | internal/core/readiness.go:248-330 | Every run over frontier tasks can be continued until all are completed, and takes exactly one completion per remaining task. |
| Scanners.CutLine | internal/plan/sections.go:237-262 | A line's text ends before its newline and one carriage return, and the next begins right after. |
| Scanners.SplitLines | internal/plan/sections.go:237-262 | The lines tile the document, each with its text. |
| Scanners.PlannerLine | internal/plan/sections.go:191-222 | One turn of the planner's loop makes the scan step. |
| Scanners.RewriterLine | internal/reconcile/reconcile.go:391-410 | One turn of the rewriter's switch makes the same scan step. |
| Scanners.PlannerHeadings | internal/plan/sections.go:191-262 | The planner's two-pass scan finds exactly the document's headings, and knows whether a fence is left open. |
| Scanners.RewriterHeadings | internal/reconcile/reconcile.go:374-414 | The rewriter's one-pass scan finds the same headings with the same offsets, levels and titles, for every document. |
| Grammar.OpensExactly | internal/plan/sections.go:204-211 | A line opens a fence if and only if it is at most three spaces or tabs and then exactly n >= 3 backticks, or n tildes; mark and n are what the fence keeps. |
| Grammar.ClosesExactly | internal/plan/sections.go:198-203 | A line closes a fence if and only if it is at most three spaces or tabs, then at least as many of its marks, then only white space. |
| Grammar.HeadingExactly | internal/reconcile/reconcile.go:402-410 | A line is a heading if and only if it begins with one to six hashes, then a space or tab, and the rest is not blank; the title is the rest, trimmed. |
| Grammar.RequirementExactly | internal/reconcile/reconcile.go:185-193 | A line names a requirement if and only if it is a heading of level three whose title is "Requirement: " and a name that is not blank; the name is trimmed. |
| Grammar.TextExactly | internal/plan/sections.go:237-262 | A line's text is the line without its newline and then without one carriage return. |
| Grammar.FencesExactly | internal/plan/sections.go:191-203 | A fence is open before a line if and only if an earlier line outside any fence opened it and none since closes it. |
| Grammar.HeadingsExactly | internal/reconcile/reconcile.go:374-414 | A document's headings are exactly its lines that are headings, outside every fence, and that open none. |
| Markdown.ConcatScan | internal/plan/sections.go:191-222 | Scanning terminated text and then more is scanning the two in turn, the fence carried over. |
| Markdown.TrailingLayout | internal/reconcile/reconcile.go:327-335 | Trailing white space joins the last piece and opens, closes and begins nothing. |
| Markdown.PiecesJoin | internal/reconcile/reconcile.go:153-218 | Cutting a document at its headings loses no byte. |
| Markdown.PiecesAreSections | internal/reconcile/reconcile.go:153-218 | Every piece after the first begins with its heading and holds no other. |
| Accepted.BlocksAreSections | internal/reconcile/reconcile.go:153-218 | The blocks read off the headings are exactly the sections named as requirements, at their offsets. |
| Reconcile.BlankLine | internal/reconcile/reconcile.go:327-335 | The output ends with an empty line, by adding newlines only. |
| Reconcile.InsertBlocks | internal/reconcile/reconcile.go:308-325 | The blocks stand between the two halves of the document, each set off by an empty line. |
| Rescan.EditedIsSection | internal/reconcile/reconcile.go:270-287 | An edited section that is not removed is again one section, under the name the operation gives it; it leaves the fence it left before, and none if it was replaced. |
| Reconcile.EditBlocks | internal/reconcile/reconcile.go:270-287 | The cursor loop copies everything between blocks once and stops at the end of the last block. |
| Reconcile.SplicedIsEdited | internal/reconcile/reconcile.go:270-293 | Editing by offsets is editing section by section: what is not edited is the same bytes. |
| Rescan.ReplacedIsSolo | internal/reconcile/reconcile.go:339-342 | A replaced block is one section with the replacement's heading and text, ending as the old one did. |
| Grammar.ReplacedKeeps | internal/reconcile/reconcile.go:339-342 | A replaced block is the new text without its trailing layout and then exactly the trailing layout of the old block. |
| Grammar.RetitledKeeps | internal/reconcile/reconcile.go:281-283 | A retitled block is the new heading and then every byte behind the text of the old heading line, its line ending included. |
| Rescan.RetitledIsSection | internal/reconcile/reconcile.go:281-283 | A retitled block is one section under the new name, and leaves the fence it left; renamed to nothing it is a section that names no requirement. |
| Rescan.RescanFinds | internal/reconcile/reconcile.go:224-342 | Unless something is added behind an open fence, rescanning the rebuilt document finds the old sections in order with the edits applied, the added ones after the last requirement and everything else untouched; the fence it leaves is the old one, or the front's when nothing follows. |
| SpecSync.ReadAccepted | internal/reconcile/reconcile.go:153-218 | No diagnostic exactly when no heading is a delta heading or an unnamed requirement and no identity repeats. |
| SpecSync.ValidateAccepted | internal/plan/deltas.go:511-540 | No diagnostic exactly when additions are new and every other operation names an accepted requirement. |
| SpecSync.ValidateOperations | internal/plan/deltas.go:542-569 | No diagnostic exactly when no two operations touch one identity, a rename's target counted. |
| SpecSync.CollectActions | internal/reconcile/reconcile.go:225-248 | Without diagnostics, the edits by identity and the additions in order; a diagnostic exactly for a rename onto an accepted identity. |
| SpecSync.Rebuild | internal/reconcile/reconcile.go:224-294 | Refused exactly for such a rename or when no requirement would remain; otherwise the rebuilt document. |
| SpecSync.Splice | internal/reconcile/reconcile.go:270-293 | The edit loop, the tail and the insertion give the document of the edited sections. |
| SpecSync.EveryOperationHits | internal/plan/deltas.go:511-569 | Every modification, removal or rename the planner accepts meets exactly one accepted requirement, and is the action rebuild applies there. |
| SpecSync.BecomesExactly | internal/reconcile/reconcile.go:270-287 | What an accepted requirement becomes: with a modification its name and text, with a removal nothing, with a rename the new name over the old body, and with no operation about it what it was. |
| SpecSync.AddedInOrder | internal/reconcile/reconcile.go:308-325 | Every addition is in the list, after exactly the additions before it in the delta, with its name and text. |
| SpecSync.RequirementsOfRebuilt | internal/reconcile/reconcile.go:224-342 | Unless something is added behind an open fence, the rebuilt document's requirements are the old ones edited in place, those renamed to nothing gone, and then the added ones. |
| SpecSync.SyncKeepsSound | internal/reconcile/reconcile.go:224-342 | A delta without diagnostics that gives names and adds nothing behind an open fence leaves the promised requirement list and a well-titled document, fence-closed if it was; so validity survives any sequence of syncs. |
| Deltas.AcceptedIdentities | internal/plan/deltas.go:492-509 | The planner's identities, found with its own scanner, are the ones the rewriter finds. |
| Deltas.DiagnosticsDecideTitled | internal/reconcile/reconcile.go:153-218 | A document is well titled, its requirements distinct, if and only if the rewriter has no diagnostic about it. |
| Deltas.HeadingsIncrease | internal/plan/sections.go:191-222 | The headings of a document come in the order of their offsets, and within it, which is what the block extraction relies on. |
| Deltas.BlockEnd | internal/plan/deltas.go:282-399 | A delta's requirement block ends where the next heading of level three or less begins. |
| Deltas.BlocksAreSolo | internal/plan/deltas.go:282-399 | The bytes of every requirement block of a fence-closed document are one section with the block's name, ready to be placed elsewhere. |
| Deltas.BlocksAreEditable | internal/plan/deltas.go:282-399 | So every ADDED and MODIFIED operation cut from a fence-closed delta meets what the rewrite proofs ask of it. |
| Deltas.SyncCapability | internal/reconcile/reconcile.go:58-122 | Whatever the checks of planner and rewriter accept leaves the promised requirement list exactly when it gives names and adds nothing behind an open fence, and then a document the next sync accepts; a well-titled document and a delta without diagnostics are accepted exactly when a requirement remains. |
| Deltas.RenameKeepsRequirement | internal/reconcile/reconcile.go:281-283 | A renamed section is still a requirement if and only if its new name is not empty. |
| OpenFences.AddedIsFound | internal/reconcile/reconcile.go:224-325 | In the rebuilt document the added blocks are pieces of their own at their place if and only if the text before the insertion point leaves no fence open. |
| OpenFences.SwallowedRequirements | internal/reconcile/reconcile.go:308-325 | Added behind an open fence, the rebuilt document never lists the requirements it should. |
| OpenFences.SyncExactly | internal/reconcile/reconcile.go:224-342 | For every well-titled document and delta without diagnostics: the rebuilt document lists the edited requirements and then the added ones if and only if every rename gives a name and nothing is added behind an open fence. |
| Deltas.HiddenRequirement | internal/reconcile/reconcile.go:308-325 | A document, and a delta whose requirement has normative text and a scenario with its steps, whose sync writes the addition into the body of the requirement before it: the result lists one requirement. |
| Deltas.LostRename | internal/reconcile/reconcile.go:281-283 | A sound document and a delta without diagnostics whose sync leaves no requirement at all, by a rename to nothing. |
| Managed.LocateInvertsWrap | internal/generate/managed.go:185-238 | Whatever marker-free text surrounds it, a wrapped body is located exactly, its hash accepted, with one marker of each kind: none arises across a seam. |
| Managed.OneCounted | internal/generate/managed.go:198-211 | Counting one occurrence of a marker is that occurrence being the only one, and the first. |
| Managed.SidesAreFree | internal/generate/managed.go:198-238 | Around a region that was located there is no other marker. |
| Managed.GuidanceFile.Refresh | internal/generate/managed.go:82-114 | Refused exactly when the file is ambiguous or edited by hand, and then unchanged; otherwise it holds the refreshed content, and is reported unchanged only if it is. |
| Managed.RefreshInstalls | internal/generate/managed.go:82-114 | A refresh leaves exactly one managed region with the rendered bytes, is idempotent, and preserves every byte outside a region that was there. |

## Left out

- Harness.Writer.Recover: takes a ledger append as all or nothing and the journal's outputs as the state file alone; torn lines, the other outputs and the folder move are in `CrashDisk`, joined by `Bridge.CommitRefines`.
- Harness.Writer.InstallState: the state file is the only output installed here, for the same reason.
- Harness.Writer.Commit: binds the state file and the record; the other outputs and the move are the disk's matter, joined by `Bridge.CommitRefines`.
- Harness.Writer.Start: the checks of declared files are left out; a worktree that is not clean is a world without a HEAD.
- Harness.Writer.Approve: the gates' verdict stands for the planning gates and for the covered-file comparisons; the task graph is built there to stand for the planner's own diagnostics, with which it agrees (`PlanWaves.ProjectTaskWaves`, `TaskGraphs.BuildTaskGraph`).
- Harness.Writer.Complete: the production profile is left out, and one scope and HEAD verdict stands for both times they are taken; a verify command always parses.
- Harness.Writer.Friction: the checks of its domain, operation and consequence texts are left out.
- Harness.Writer.Sync: the accepted documents and the plan hash of its manifest are left to `Deltas.SyncCapability` and `CrashDisk`.
- Harness.Writer.Archive: the folder move and the change hash are left out; an archived change's state stays addressable by its name.
- Roots.CreateKeeps: creation is one step; its own journal (`internal/cmd/new.go`, `internal/cmd/transaction.go`) is left out.
- SpecSync.Rebuild: writes existing documents only; `newDocument`, and Purpose texts that contain requirement headings, are left out.
- Deltas.SyncCapability: one existing capability; its operations are values, whose blocks `Deltas.BlocksAreEditable` ties to the delta's text. The regular expressions of delta headings and the checks of normative text and scenarios are left out.
- `TransitionTaskActivity`, which no handler reaches; its record kind is part of the ledger and of the approval walk.
- The lifecycle check that `Dispatch` makes before recovery: retrying a command need not reach recovery.
- Liveness of a waiting attempt after HEAD or the actor has changed: the code then refuses by design.
- Symbolic links, read errors, file modes, directory flushing, clocks, timestamps and the sorting of paths.
- Parsing of task table rows.
- JSON coding, SHA-256, and Git: abstract as described under Assumptions.
- Planning gates' text checks, review packets, the production profile and its evidence classes, report blockers.
- `Clean` and `Drift` of the managed file, and the other generated documents.
- Terminal output, help, argument parsing, context manifests and bounded output buffers.
