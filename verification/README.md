# OCTeam coordination layer: a verified model

OCTeam lets several agent processes share one team through files: `state.json`, one mailbox per member, one
file per task, and lock files.  Any process may be slow, fail an operation, or die between two of them.  This
project models the parts of that layer whose correctness is not visible from any single function, and proves
what they keep over every run.

| files | subject |
|---|---|
| `Json`, `ThreeWayMerge`, `TeamMerge` | the three-way merge of JSON trees, of the member list, of the run and its counters |
| `TeamStore`, `TeamRuns`, `TeamConvergence` | saving and reloading a live team; runs of many processes against one state file; whether the order of two saves matters |
| `MailboxLog`, `Mailbox`, `MailboxEffects`, `MailboxFiles`, `MailboxRuns` | log pruning; the file operations of write, poll, ack and release; what they leave in the files; the methods that perform them; runs with failures and crashes |
| `TransformHook` | the chat hook that injects polled messages and acknowledges them |
| `TaskClaims`, `TaskDependencies`, `TaskReaper`, `TaskCalls` | the task claim protocol as single steps; blockers; the stale-claim reaper; the claim call itself |
| `FileLock`, `LockCalls`, `OrderedLocks` | the PID lock file; `withLock`; acquiring several team mutexes in order |
| `Permissions` | the monotone permission merge |
| `Primes`, `Sieve`, `Totient`, `DivisorSum`, `ModPow` | the number theory behind the delegate demo's expected answers |
| `Utf8` | the two truncations by byte length |
| `Options` | a value that may be missing |

## How the model is built

- Code that changes things step by step is a class or a method with loops, proved against a specification.
  `TeamStore.Team` is the live team; `MailboxFiles.FileMailbox` a mailbox on disk; `TransformHook.Hook` the
  hook; `LockCalls.LockPath` and `TaskCalls.TaskBoard` run a call with other processes acting at every wait.
- What a mailbox operation does to the disk is a sequence of file operations (`Mailbox.PollOps`, `AckOps`,
  `ReleaseOps`), given which of them fail.  The methods perform exactly these sequences, and a crash is a
  prefix of one.
- The task and lock protocols are state machines: a run is any sequence of single steps, and a step that
  cannot happen changes nothing.  `TaskCalls` and `LockCalls` are the calls as they run, with arbitrary
  steps of others at every wait; every execution is proved to be a run of the state machine.
- A JSON object is a map with an explicit `undefined`, compared by the text it serializes to.  `undefined` is
  a value a key may hold (a cleared field), which is different from a key that was deleted.
- Times are integers and the clock does not run backwards.  Failing I/O, directory listings, sizes of texts
  and the clock are parameters.

## Where the code does less than its comments say

Each item names a lemma with the failing inputs, for every such input, and the theorem that says exactly when the
code is right.

- A claimed task can have an unfinished blocker, if `blockedBy` is patched while the task is active or past the
  point where its claim looks at that blocker.  After every such update a continuation exists that breaks the
  property (`TaskDependencies.LateBlockerBreaksDependencies`, reachable by
  `TaskDependencies.BlockerAddedMidClaim`); without one it holds (`TaskDependencies.NoWorkAheadOfDependencies`).
- The reaper can reset a later claim than the one it read, exactly if that one carried no claim time or was made
  in the millisecond of the reading (`TaskReaper.LaterClaimIsDestroyedExactly`).
- Pruning can drop the record of a reserved message if a listing of the reservation directory fails.  It keeps
  every such record of every log exactly if both listings work (`MailboxLog.UnlistedReservationsLoseProtection`): if the
  second fails, a log within the size limit loses an expired record (`MailboxLog.ExpiredRecordGoes`); if the first
  fails, an oversized log loses one that lies before the tail, although the second works
  (`MailboxLog.RecordBeforeTailGoes`).  `MailboxLog.ReservedIsKeptExactly` is the condition for one id and one log.
- A release can return a message that is recorded as processed, exactly if the log is still over the size limit after
  pruning, which the release then does not read (`MailboxRuns.RequeuesExactly`).  While listings work and the log is
  read, a recorded message is never returned or delivered again (`MailboxRuns.NoRedeliveryOfRecorded`).
- The message count is conserved exactly if no merge is clamped at zero (`TeamRuns.ConservedExactly`).  A clamp
  needs a process that refunds more than it has sent (`TeamRuns.CounterConservation`), for instance a refund by
  a process that sent nothing, after another has saved one (`TeamRuns.RefundsBeyondSendsAreClamped`).
  `src/tools/exchange/messaging.ts` charges before it refunds and never lowers a live count below zero.
- After a save that nobody raced, the live members and run are not refreshed; they agree with the stored state
  exactly under the condition of `TeamStore.QuietSaveAgreement`.  It fails for a member key deleted outright
  (`TeamStore.DeletedMemberKeyIsNotSaved`; no code under `src` deletes one, fields are cleared by assigning
  `undefined`) and for a token total out of step with the per-member counts
  (`TeamStore.UnsettledTotalIsNotRefreshed`).
- `withOrderedLocks` is free of deadlock for calls over distinct teams exactly if no two directories compare equal
  (`OrderedLocks.DeadlockFreeExactly`), and a call that names a team twice never reaches its body
  (`OrderedLocks.RepeatedTeamNeverRuns`).
- A lock is not exclusive if a process takes more than a second between creating the file and writing its PID
  (`FileLock.LatePidBreaksExclusion`; otherwise `FileLock.MutualExclusion`).
- The permission merge loosens a preset that has a subtool rule stricter than its wildcard
  (`Permissions.StricterSubtoolIsLoosened`), and no other preset (`Permissions.MonotoneExactly`).

## Model

| member | source | states |
|---|---|---|
| `Json.ObjJEq` | src/state/store.ts:519-527 | two objects have the same JSON text exactly when every key, absent or `undefined` read alike, has |
| `Json.ArrJEq` | src/state/store.ts:519-527 | two arrays have the same text exactly when they have the same length and the same entries |
| `Json.NormIdempotent` | src/state/store.ts:519-521 | cloning through JSON text twice is cloning once |
| `ThreeWayMerge.Convergence` | src/state/store.ts:616-658 | for all trees: merging in either order gives the same JSON text if and only if the two sides do not conflict, conflict being defined path by path |
| `ThreeWayMerge.EditsSurvive` | src/state/store.ts:616-658 | without a conflict, at every path where one side left the ancestor alone the merge shows the other side's value |
| `ThreeWayMerge.MergeUntouched` | src/state/store.ts:616-658 | a caller that changed nothing leaves disk exactly as it is |
| `ThreeWayMerge.MergeAlone` | src/state/store.ts:616-658 | when nobody else wrote, the caller's value is what is stored |
| `ThreeWayMerge.MergeAgreed` | src/state/store.ts:616-658 | two processes that made the same change agree on it |
| `ThreeWayMerge.MergedKey` | src/state/store.ts:651-657 | skipping an untouched key and merging it come to the same value, from either side |
| `ThreeWayMerge.MergedWhole` | src/state/store.ts:616-658 | a value the merge does not look into is the caller's if the caller changed it, whatever disk holds, else disk's |
| `ThreeWayMerge.CallerWinsAt` | src/state/store.ts:616-658 | for all trees and paths: where the caller changed the ancestor's value and the merge looks no further, the merge shows the caller's value, conflict or not |
| `ThreeWayMerge.MergedAt` | src/state/store.ts:616-658 | at every path the merge reaches, the merged value is the merge of the three values there |
| `ThreeWayMerge.DiskStaysAt` | src/state/store.ts:616-658 | at every path the merge reaches and the caller left alone, disk's value stays as it is |
| `TeamMerge.MergedScalar` | src/state/store.ts:536-549 | a scalar is the caller's exactly if the caller's object has the key, changed it, and does not clear a run owner another process has just set |
| `TeamMerge.OwnerKept` | src/state/store.ts:538-547 | a caller clearing the run owner does not undo the owner another process set since |
| `TeamMerge.Membership` | src/state/store.ts:661-716 | the merged names are the common ones plus those one side has and the ancestor had not, each once |
| `TeamMerge.MergedMember` | src/state/store.ts:677-713 | the merged record of a name: field by field, the caller's value where the caller's object has the key and changed it, else disk's; and for a name that a side lacks or the ancestor did not have |
| `TeamMerge.MembersInOrder` | src/state/store.ts:661-716 | the merged members stand in disk's order, those only the caller has after them in the caller's |
| `TeamMerge.MergedCounter` | src/state/store.ts:584-591 | on one run the stored message count is disk's plus the caller's change since its snapshot, not below zero |
| `TeamMerge.CountedFromAncestor` | src/state/store.ts:584-591 | the count with any ancestor: disk's plus the caller's change, counted from zero where the ancestor has none, not below zero |
| `TeamMerge.CallerWinsInRun` | src/state/store.ts:574-603 | in a run both sides know, the caller's change wins at every path that is not a combined counter |
| `TeamMerge.DiskStaysInRun` | src/state/store.ts:574-603 | and disk's value stays at every such path the merge reaches and the caller left alone |
| `TeamMerge.StaleWriterFenced` | src/state/store.ts:560-573 | a run on disk that is neither the caller's nor the one of its last view is kept as it is |
| `TeamMerge.MergedTokens` | src/state/store.ts:592-602 | the stored token total is the sum of the merged per-member counts where there are any, else the larger of the two totals |
| `TeamMerge.SumTokens` | src/state/store.ts:596-597 | the loop adds up every member's tokens |
| `TeamMerge.ComputeMerge` | src/state/store.ts:533-606 | the merge as it runs equals the merge the lemmas are about |
| `TeamStore.Team.Save` | src/state/store.ts:753-1005 | each outcome has exactly one cause: deleted here, deleted by a marker of this team run, marker or read failing, another team on disk, too large even when trimmed, write failing; otherwise it is saved, which leaves the merge on disk and in the snapshot, within the size cap, the live scalars in agreement, and the live members and run too if another process wrote; a save that did not happen changes nothing |
| `TeamStore.Serialize` | src/state/store.ts:836-888 | a state is written as it is if it fits, else with its long responses cut if that fits, else not at all |
| `TeamStore.TrimmedState` | src/state/store.ts:842-860 | trimming replaces each response over the cap by its longest whole-character prefix within it and a marker, and touches nothing else |
| `TeamStore.Team.SyncLive` | src/state/store.ts:893-1002 | pushing the merge into the live team: which parts agree with the stored state afterwards, and that identity fields stay |
| `TeamStore.Team.SyncScalars` | src/state/store.ts:903-917 | every merged scalar but the identity fields is adopted, nothing else changes |
| `TeamStore.Team.SyncMembers` | src/state/store.ts:931-958 | splicing, refreshing and appending leaves exactly the merged names, each with its synchronized record |
| `TeamStore.Team.SyncRun` | src/state/store.ts:966-1002 | the live run ends up with the merged run's JSON text, whichever keys were added, dropped or nested |
| `TeamStore.Team.Reload` | src/state/store.ts:334-384 | the live team shows the merge of disk with its unsaved changes; the spawn guard and the forced direct tasks of the run stay; the snapshot becomes disk |
| `TeamStore.Team.ClearActiveTask` | src/state/store.ts:103-116 | ending a run clears it and the owner token and keeps its mode, id and token tally, and touches nothing else |
| `TeamStore.SyncedFields` | src/state/store.ts:334-384 | deleting and assigning key by key reproduces the merge, although cloning drops `undefined`, because only the live side can hold one |
| `TeamStore.UndefFromCaller` | src/state/store.ts:616-658 | an explicit `undefined` in a merge stands where the caller's object reads `undefined` |
| `TeamStore.QuietSaveAgreement` | src/state/store.ts:893-1002 | after a save nobody raced, the live members agree with the stored ones if and only if no member key was deleted outright, and the live run with the stored one if and only if the counters were settled |
| `TeamStore.DeletedMemberKeyIsNotSaved` | src/state/store.ts:706-713 | for any such save, member and key: a key the caller deleted is stored with its old value, and the live member stays without it |
| `TeamStore.UnsettledTotalIsNotRefreshed` | src/state/store.ts:592-602 | for any such save: the stored total is the one the per-member counts give, and the live run keeps its own, whatever it is |
| `TeamStore.TrimmedIsParsed` | src/state/store.ts:842-860 | cutting responses to fit the size cap keeps a state in the form it is read back |
| `TeamStore.CutTextIsLongestPrefix` | src/state/store.ts:849-858 | the bytes of a cut response are the longest whole-character prefix of the original within 32,768 bytes, at most three bytes shorter |
| `TeamStore.CutResponses` | src/state/store.ts:848-860 | the loop cuts every oversized response and touches no other |
| `TeamRuns.SaveAppliesEdits` | src/state/store.ts:661-716 | one save changes the stored membership by exactly the edits its process has pending |
| `TeamRuns.MembershipOverRuns` | src/state/store.ts:661-1005 | over every run a stored member disappears at an event only if this is a save of a process that had removed it and not saved since, and a name appears only in a save of a process that had added it and not saved since |
| `TeamRuns.NextMembership` | src/state/store.ts:661-716 | one event changes the stored membership exactly if it is a save of a process that has the change pending |
| `TeamRuns.PendingStep` | src/state/store.ts:326-384 | a pending change is one the process just edited, or was pending before and not saved; no reload or save of others creates one |
| `TeamRuns.ConservedExactly` | src/state/store.ts:584-591 | over every run on one orchestration: in all states the stored count is the initial one plus everything saved and live minus snapshot is each process's unsaved part, if and only if no merge is clamped |
| `TeamRuns.NextConservesExactly` | src/state/store.ts:584-591 | one edit, save or reload keeps these books if and only if its merge is not clamped |
| `TeamRuns.CounterConservation` | src/state/store.ts:584-591 | while no process has refunded more than it sent, the books are kept and the clamp never fires, in every state of every run |
| `TeamRuns.ClampIdle` | src/state/store.ts:578-590 | the clamp at zero does not fire while no process has refunded more than it sent |
| `TeamRuns.RefundsBeyondSendsAreClamped` | src/state/store.ts:584-591 | for all non-negative counts on disk, in the snapshot and live: the merged count is off by the clamp exactly if disk plus live is below the snapshot, and is then zero |
| `TeamRuns.SaveIsFenced` | src/state/store.ts:560-573 | a save by a process that has not loaded the run on disk leaves every field of that run, responses apart where they are cut to fit, and puts the live team on it |
| `TeamRuns.UnloadedRunIsFenced` | src/state/store.ts:560-573 | over every run of events: a process that was not on a run and has since only edited its own team leaves that run on disk unmixed and uncleared by its next save |
| `TeamConvergence.StateConvergence` | src/state/store.ts:533-606 | two states with one ancestor and one run: merging either into the other gives the same state if and only if scalars, common members and the run do not conflict; added and removed members, message counts and token totals never do |
| `TeamConvergence.ScalarsConvergence` | src/state/store.ts:536-549 | scalars converge exactly if at every key the sides read the same or exactly one of them would write it |
| `TeamConvergence.MembersConvergence` | src/state/store.ts:661-716 | members converge exactly if the records both sides have do, whoever added or removed the others |
| `TeamConvergence.RunConvergence` | src/state/store.ts:574-603 | the run converges exactly if no key but the combined counters conflicts |
| `TeamConvergence.TwoNewRunsDisagree` | src/state/store.ts:560-573 | two processes that each started a run never converge: the one on disk stays |
| `MailboxLog.PrunedIds` | src/messaging/mailbox.ts:387-440 | exactly which ids pruning keeps recorded |
| `MailboxLog.PrunedLines` | src/messaging/mailbox.ts:327-441 | the log is rewritten exactly if it is too large or has a line older than two minutes; every younger line looked at stays, and whatever else stays is of a message with a reservation |
| `MailboxLog.TailIsLongest` | src/messaging/mailbox.ts:347-375 | of an oversized log exactly the longest tail within the window is looked at |
| `MailboxLog.PruningProtectsReserved` | src/messaging/mailbox.ts:327-441 | by age or by size, pruning keeps every recorded id that has a reservation if the listing that matters for this log worked, and records nothing new |
| `MailboxLog.ReservedIsKeptExactly` | src/messaging/mailbox.ts:327-441 | for every log, clock and failure: exactly when a reserved, recorded id is still recorded afterwards |
| `MailboxLog.UnlistedReservationsLoseProtection` | src/messaging/mailbox.ts:327-441 | pruning keeps every reserved record of every log if and only if both listings work |
| `MailboxLog.ExpiredRecordGoes` | src/messaging/mailbox.ts:387-424 | for any id and clock, if the second listing fails: an expired record of a log within the limit goes although its reservation is there |
| `MailboxLog.RecordBeforeTailGoes` | src/messaging/mailbox.ts:345-435 | for any id, time and clock, if the first listing fails: a record before the tail of an oversized log goes although its reservation is there and the second listing may work |
| `MailboxFiles.FileMailbox.Write` | src/messaging/mailbox.ts:111-147 | one append, unless the mailbox would exceed its limit or the append fails |
| `MailboxFiles.FileMailbox.Poll` | src/messaging/mailbox.ts:160-256 | over the files: unless a step fails it returns exactly the first inbox message of each id that is no directive for another recipient, in order, each in a reservation, and empties the inbox; after a failure it throws, the inbox is as before, and only reservations that cannot be removed stay; and the file operations are the planned ones, in order |
| `MailboxFiles.FileMailbox.AckMessages` | src/messaging/mailbox.ts:262-317 | over the files: the messages before the first failed append are recorded, lose their reservations where these can be removed, and are reported; the log is pruned exactly after a clean batch, and the call succeeds exactly if nothing fails |
| `MailboxFiles.FileMailbox.Prune` | src/messaging/mailbox.ts:327-441 | rewrites the log exactly if pruning drops something, and throws exactly when a read or the rewrite fails |
| `MailboxFiles.FileMailbox.ReleaseStale` | src/messaging/mailbox.ts:448-611 | over the files: after pruning, exactly the listed, readable, stale reservations not known as processed go back to the inbox where the append works, and the files of those and of processed ones are removed |
| `MailboxFiles.WrittenIs` | src/messaging/mailbox.ts:189-221 | a loop that succeeded `i` times and then failed has written exactly the first `i` |
| `MailboxEffects.PollLeaves` | src/messaging/mailbox.ts:160-256 | the planned operations and result of a poll have the outcome stated for the method |
| `MailboxEffects.BatchIsDue` | src/messaging/mailbox.ts:166-190 | deduplicating and filtering leaves exactly the due messages, in inbox order |
| `MailboxEffects.DueUnique` | src/messaging/mailbox.ts:166-190 | the inbox determines which messages are due |
| `MailboxEffects.AckLeaves` | src/messaging/mailbox.ts:262-317 | the same for an acknowledgement |
| `MailboxEffects.ReleaseLeaves` | src/messaging/mailbox.ts:448-611 | and for a release |
| `MailboxRuns.HarmlessKeepsInv` | src/messaging/mailbox.ts:160-611 | which single file operations keep every accepted message safe |
| `MailboxRuns.HoldsAtEveryPoint` | src/messaging/mailbox.ts:160-611 | a sequence of such operations keeps it wherever a crash cuts it |
| `MailboxRuns.BatchOf` | src/messaging/mailbox.ts:165-190 | a poll's batch is exactly the inbox messages its recipient may receive, duplicates and foreign directives apart |
| `MailboxRuns.PollIsHarmless` | src/messaging/mailbox.ts:160-256 | every step of a poll, its rollbacks included, is such an operation |
| `MailboxRuns.AckIsHarmless` | src/messaging/mailbox.ts:262-317 | so is every step of an acknowledgement |
| `MailboxRuns.ReleaseIsHarmless` | src/messaging/mailbox.ts:448-611 | and every step of a release |
| `MailboxRuns.NoMessageLost` | src/messaging/mailbox.ts:160-611 | in every state of every run, with any failures and crashes, every accepted message for the recipient is in the inbox, in a reservation, or has had a processed record |
| `MailboxRuns.DeliveredAtMostOnce` | src/messaging/mailbox.ts:149-158 | as long as nothing is released back, no id is delivered twice, whatever fails or crashes |
| `MailboxRuns.RecordedStep` | src/messaging/mailbox.ts:327-573 | no event requeues a reserved message that is recorded, or drops its record while it stays reserved |
| `MailboxRuns.NoRedeliveryOfRecorded` | src/messaging/mailbox.ts:160-611 | over every run of writes, polls, acks, releases and crashes: from a state where an id is used up, not waiting and recorded if it is still reserved, no release requeues it and no poll delivers it, as long as listings work and the log is read |
| `MailboxRuns.RecordedIsFinished` | src/messaging/mailbox.ts:262-317 | an acknowledgement that got as far as recording an id leads to such a state, even if the reservation stayed or the call was cut short |
| `MailboxRuns.AcknowledgedIsDeliveredOnce` | src/messaging/mailbox.ts:160-611 | so a delivered and recorded id is delivered by no later poll, releases included |
| `MailboxRuns.RequeuesExactly` | src/messaging/mailbox.ts:448-611 | a complete release returns exactly the listed, readable, stale reservations whose append works and whose id it does not find recorded, and it finds none in a log it does not read |
| `TransformHook.Hook.Transform` | src/hooks.ts:481-635 | at every exit and for every failure: what is injected is the polled messages that pass the run filter and were recorded in this call; the counter grew by just these; the compacting flag is consumed once; a skipped call touches nothing. In a call that is not skipped and in which nothing fails, all due messages are polled, exactly those of the active run or of none are injected, in order, and all are recorded, directives apart while the team state cannot be read |
| `TransformHook.Hook.Deliver` | src/hooks.ts:529-627 | the same for one polled batch |
| `TransformHook.Hook.InjectAndAck` | src/hooks.ts:562-614 | push, acknowledge, and on a partial failure keep in the part exactly the recorded messages |
| `TransformHook.Hook.FindTarget` | src/hooks.ts:562-570 | the backward search finds the last user message, else the last message |
| `TransformHook.Hook.Acknowledge` | src/hooks.ts:587-598 | with the lock, the messages before the first failed append are recorded and reported, and it succeeds exactly if no append, unlink or prune fails; without it nothing happens |
| `TransformHook.InjectedIffAcknowledged` | src/hooks.ts:509-627 | a polled message is injected if and only if it was recorded in this call and the run filter passes it, and it stands in the target's newest part |
| `TransformHook.UnreadableRetains` | src/hooks.ts:526-558 | with unreadable team state a polled directive is neither shown nor recorded |
| `TransformHook.AckRecords` | src/messaging/mailbox.ts:262-317 | an acknowledgement writes a record for exactly the messages it reports |
| `TaskCalls.TaskBoard.UpdateTaskFile` | src/state/tasks.ts:391-491 | the update is accepted exactly if the task has the expected owner, status and claim time and may make the transition, and then exactly the patched fields of this task are overwritten; each refusal has its one cause; outside the claim window the claim lock is gone, others acting between the write and the unlink |
| `TaskCalls.ApplyPatch` | src/state/tasks.ts:401-469 | the checks in order and the assignment of patched fields give exactly that answer |
| `TaskClaims.UpdateExactly` | src/state/tasks.ts:401-469 | so does the update the lemmas are about |
| `TaskClaims.UpdateStep` | src/state/tasks.ts:401-469 | an update that expects another owner, status or claim changes no task, whatever the patch; an accepted one changes its task only |
| `TaskClaims.CompletedByItsOwner` | src/state/tasks.ts:405-408 | over every run in which completing updates name the owner they expect: a task is completed only by the member who owns it at that moment |
| `TaskClaims.ResolvedIsAbsorbing` | src/state/tasks.ts:432-438 | no patch of any kind revives a completed or deleted task |
| `TaskClaims.OrdinaryNeverActivates` | src/state/tasks.ts:432-444 | an update that neither claims nor changes the owner to another member makes no task active and gives none away |
| `TaskClaims.FlipExactly` | src/state/tasks.ts:357-382 | the claim's write waits for an update to finish, takes exactly a pending task, and gives up on any other, changing no task and removing its lock |
| `TaskClaims.AtMostOneActiveTask` | src/state/tasks.ts:290-301 | in every reachable state a member holds at most one claimed or in-progress task, although the scan reads one file at a time |
| `TaskCalls.TaskBoard.ClaimTask` | src/state/tasks.ts:270-383 | with anything happening at its waits: the call claims a task exactly if it reports success, and then this task for this owner, who holds no other; it refuses for a held task or a blocker exactly if one was read; and when nobody else acts, the state at the start decides between success and each refusal |
| `TaskCalls.TaskBoard.ScanTasks` | src/state/tasks.ts:290-301 | every listed file is read at some moment of the scan, and the answer is whether one of the contents read was active and the owner's |
| `TaskCalls.TaskBoard.TakeClaimLock` | src/state/tasks.ts:303-317 | the claim lock is obtained exactly if there was none, or a stale one and none after it was removed |
| `TaskCalls.TaskBoard.ScanBlockers` | src/state/tasks.ts:333-355 | every blocker is read at some moment of the check, and the answer is whether one was missing or unresolved when read |
| `TaskDependencies.NoWorkAheadOfDependencies` | src/state/tasks.ts:328-383 | if no update gives a task an unresolved blocker while it is active or past its claim's look at that blocker, every active task has all blockers resolved, in every reachable state |
| `TaskDependencies.LateBlockerBreaksDependencies` | src/state/tasks.ts:333-371 | that condition is needed: after every such update there is a continuation in which an active task has an unresolved blocker |
| `TaskDependencies.BlockerAddedMidClaim` | src/state/tasks.ts:333-371 | such an update is reachable: a concrete run |
| `TaskReaper.ReaperResetsOnlyTheClaimItSaw` | src/state/tasks.ts:606-631 | over every run, a reaper's write that goes through resets the very claim it read, older than the TTL and not protected, and nothing else; the claim read must carry a time earlier than the reading |
| `TaskReaper.ReapWriteIff` | src/state/tasks.ts:424-426 | exactly which tasks the reaper's compare-and-set accepts |
| `TaskReaper.PassExactly` | src/state/tasks.ts:606-631 | a pass nobody disturbs resets exactly a claimed task of an unprotected owner whose lock is missing or stale and whose claim is past its time to live |
| `TaskReaper.LaterClaimIsDestroyedExactly` | src/state/tasks.ts:606-631 | in every reachable state where a reaper has just read a claim: some continuation has it reset a later claim, by any member without another task, if and only if the claim read carries no claim time or that of the reading |
| `TaskReaper.SameMillisecondClaimIsDestroyed` | src/state/tasks.ts:606-631 | every claim read in the millisecond it was made can be mistaken for a later one |
| `TaskReaper.UntimedClaimIsDestroyed` | src/state/tasks.ts:606-631 | so can every claim read without a claim time |
| `TaskClaims.ClaimChecks` | src/state/tasks.ts:303-355 | a pending task without blockers and without a claim lock passes all checks |
| `FileLock.MutualExclusion` | src/state/locks.ts:109-326 | in every run at most one live caller is inside, the file is its own, and no caller of a process that has the path among its unreleased locks is inside |
| `FileLock.StepKeepsInv` | src/state/locks.ts:109-326 | every step of acquiring, heartbeat, release, failed release, crash and stale-lock pass keeps the invariant behind it |
| `FileLock.OnlyTheOwnerRemovesItsFile` | src/state/locks.ts:186-326 | the file of a live process is removed only by that process, and by its stale-lock pass only when none of its callers is inside |
| `FileLock.ReapExactly` | src/state/locks.ts:186-241 | what a stale-lock pass does to the file, in every case |
| `FileLock.BeatRefreshes` | src/state/locks.ts:121-130 | a heartbeat refreshes the file and nothing else |
| `FileLock.AbandonedLockIsFreed` | src/state/locks.ts:186-241 | a file that no call is using, left by a dead process with or without a PID in it, or by a failed release, is gone after two passes of any live process, or of the one that failed |
| `FileLock.LatePidBreaksExclusion` | src/state/locks.ts:205-216 | from any state with a caller that has created the file, any wait of more than a second before writing the PID lets two callers in |
| `LockCalls.LockPath.AcquireLock` | src/state/locks.ts:254-294 | the call ends inside the lock, or after a failed write, or only past the deadline, and polls at most 601 times |
| `LockCalls.LockPath.WithLock` | src/state/locks.ts:109-155 | the body runs, with all its steps, exactly if the lock is obtained, and inside it; it is not obtained only if a write fails or, the file being there, the deadline passes; the call leaves nothing of itself behind, whatever fails |
| `LockCalls.LockPath.ReleaseLock` | src/state/locks.ts:304-326 | a release removes the file exactly if it is the caller's, a failed one leaves it, and the path is among the unreleased ones afterwards exactly if the release failed |
| `LockCalls.AloneInTheBody` | src/state/locks.ts:109-155 | at every point of a body, if nobody has dawdled so far, its caller is the only one inside |
| `OrderedLocks.OrderedIff` | src/state/activation.ts:41-42 | sorting gives a strict order if and only if the teams are distinct and no two directories compare equal |
| `OrderedLocks.Sorts` | src/state/activation.ts:41-42 | the stable sort permutes and orders |
| `OrderedLocks.AlwaysAnEnabledStep` | src/state/activation.ts:41-48 | deadlock freedom: in every reachable state with an unfinished call, some call can take a step |
| `OrderedLocks.StepsRunOut` | src/state/activation.ts:41-48 | every step brings the end closer by one, so a run in which somebody keeps moving finishes every call |
| `OrderedLocks.BodyHoldsExactlyItsTeams` | src/state/activation.ts:41-48 | a body runs while its call holds exactly the mutexes of its teams |
| `OrderedLocks.StepKeepsInv` | src/state/locks.ts:50-66 | queueing, granting in first-in-first-out order and leaving keep every queue equal to the places taken |
| `OrderedLocks.NoOvertaking` | src/state/locks.ts:50-66 | over every run: a call is not granted a mutex while one that queued for it earlier is still in the queue |
| `OrderedLocks.FinishedHasRun` | src/state/activation.ts:41-48 | a call that has left its mutexes has been in its body |
| `OrderedLocks.DeadlockFreeExactly` | src/state/activation.ts:41-48 | for every set of teams: all calls over distinct teams of it, under all schedules, are free of deadlock if and only if no two directories compare equal |
| `OrderedLocks.TiedDirectoriesDeadlock` | src/state/activation.ts:41-48 | any two distinct teams whose directories compare equal, under any ranking, can deadlock two calls |
| `OrderedLocks.RepeatedTeamNeverRuns` | src/state/activation.ts:41-48 | a call that names any team twice never reaches its body, under any schedule and beside any other calls |
| `OrderedLocks.RepeatedTeamDeadlocks` | src/state/activation.ts:41-48 | and any set of calls with such a one runs into a deadlock |
| `Permissions.MergePermissions` | src/agents/index.ts:59-123 | the loops compute the merge the lemmas are about |
| `Permissions.ApplyNested` | src/agents/index.ts:107-118 | so does the inner loop, independently of the order of entries |
| `Permissions.MonotoneExactly` | src/agents/index.ts:59-123 | no user value loosens any effective permission if and only if no subtool rule of the preset is stricter than its wildcard; a preset with a denied wildcard is always such |
| `Permissions.StricterSubtoolIsLoosened` | src/agents/index.ts:71-78 | for every preset with a stricter subtool rule, the user value that loosens it |
| `Permissions.FlooredIsMonotone` | src/agents/index.ts:59-123 | under that condition every lookup by exact key, then wildcard, is at least as strict after the merge |
| `Permissions.ScalarDenyTakesEffect` | src/agents/index.ts:67-78 | a tool the user denies outright is denied for every subtool |
| `Permissions.ScalarExactly` | src/agents/index.ts:67-78 | an outright user value takes effect exactly if it is at least as strict as the preset's scalar for the tool or its wildcard; a malformed value never does |
| `Permissions.NestedExactly` | src/agents/index.ts:79-120 | a user's map takes effect subtool by subtool: a rule at least as strict as what the preset says, else the preset's own, else the user's wildcard, else the preset |
| `Sieve.SievePrimes` | demos/05-team-delegate/check-math-100-problems.ts:37-49 | an entry is true exactly if its index is prime, although striking starts at the square and stops at the root |
| `Sieve.StrikeMultiples` | demos/05-team-delegate/check-math-100-problems.ts:43-45 | one inner loop strikes exactly the multiples of its prime from the square on |
| `Sieve.PrimeCount` | demos/05-team-delegate/check-math-100-problems.ts:54-61 | the number of primes up to the bound |
| `Totient.TotientSieve` | demos/05-team-delegate/check-math-100-problems.ts:101-113 | each entry is the number of integers up to its index that are coprime to it |
| `Totient.ApplyPrime` | demos/05-team-delegate/check-math-100-problems.ts:107-109 | subtracting an exact quotient removes exactly the integers the prime divides first |
| `Totient.PassPrime` | demos/05-team-delegate/check-math-100-problems.ts:107-109 | counting route: what one prime removes is the quotient, and the division is exact |
| `Totient.UntouchedIffPrime` | demos/05-team-delegate/check-math-100-problems.ts:105-105 | an entry still equal to its index marks a prime, and only a prime |
| `Totient.CountIsPhi` | demos/05-team-delegate/check-math-100-problems.ts:101-113 | what is left after all primes is the coprime integers |
| `DivisorSum.SumOfDivisors` | demos/05-team-delegate/check-math-100-problems.ts:67-77 | the sum of all divisors, though the loop stops at the square root and counts a root once |
| `ModPow.Compute` | demos/05-team-delegate/check-math-100-problems.ts:83-94 | the power modulo the modulus, one included; what happens for negative arguments; failure below one |
| `ModPow.Round` | demos/05-team-delegate/check-math-100-problems.ts:88-92 | one squaring step keeps the result times the remaining power congruent to the goal |
| `Utf8.CutBytes` | src/state/store.ts:851-857 | the backward scan of a valid text finds its longest valid prefix within the limit, at most three bytes shorter |
| `Utf8.CapResult` | src/state/tasks.ts:445-467 | a result within 60,000 bytes is left alone; a longer one becomes the longest prefix that fits unit by unit, and the marker, within the cap |
| `Utf8.BackUp` | src/state/store.ts:851-857 | stepping back over continuation bytes ends at a character boundary |
| `Utf8.LengthAtMostSum` | src/state/tasks.ts:456-464 | the encoded length is at most the sum over single code units, so counting them one by one never overruns |
| `Utf8.ByteLengthIsEncoded` | src/state/tasks.ts:448-460 | the byte length is the length of the UTF-8 encoding (section 3 of RFC 3629), lone surrogates replaced, and that encoding is valid |
| `Utf8.PointIsChar` | src/state/tasks.ts:448-460 | every code point is encoded as one well-formed character |

## Left out

- The orchestration modes, the tools, the terminal interface, prompts and the role catalogue.
- Symlink and FIFO hardening, fsync, file handles: a file operation is one step that happens or fails.
- `undefined` inside arrays (JSON text cannot carry it), key order, `NaN` and number overflow.
- Object identity in the live team: members and nested maps are replaced as values, so the model does not say that references held elsewhere stay valid; edits to the live team during an awaited save are not modelled.
- The change-time shortcut that skips a reload, retries and back-off of saving, validation of loaded files.
- The field `isMaster`, dropped when a state is stripped for saving.
- Sizes of serialized texts are parameters: nothing is proved about `JSON.stringify`.
- The directive authentication registry and the rendering of injected text: an injected part is the list of messages it renders.
- Eventual delivery: unreadable or oversized reservations are skipped on purpose.
- Delivery after a release is at least once; a late acknowledgement leaves a requeued copy.
- One recipient's mailbox at a time, with its lock as mutual exclusion; the lock itself is modelled separately.
- Renaming the owner of an active task (`fixmember`): the task theorems are about updates that name no owner but the present one.
- TeamConvergence.StateConvergence: is about sides without a run or on one run; where runs differ the fence decides which stays (`TeamRuns.SaveIsFenced`, `TeamConvergence.TwoNewRunsDisagree`).
- The order in which a reaper pass visits tasks: each task's read, test and write are separate steps in any order.
- Task files deleted from disk, and task creation limits.
- One stale-lock pass is one step, so the residual race the source admits between re-reading the PID and truncating is not in the model; PIDs are not reused.
- Recovery from a failed release whose mark another call of the same process has meanwhile removed: only exclusion is proved for it.
- An in-flight heartbeat that lands after release.
- `decideActivate`, the interaction gates and `deepFreeze`.
