# Verification of the admin_infra controller

A Dafny 4.11 project that models the stateful parts of `config-server` and two self-contained parts of `harness`,
and proves what they promise. `dafny verify dfyconfig.toml` checks the whole project. Every result holds for all
inputs, all runs and, where several processes are involved, all interleavings of the modelled steps.

What is modelled, by module:

- `Plans`, `Engine`, `Runner`, `RunnerLaws`: the plans of jobs, the retry policy around one step, and the loop that
  walks a plan with skipped, always repeated and deferred steps, rewinds and recorded progress.
- `History`: the life of a job over any number of controllers that die and resume, one at a time.
- `Lease`, `LeaseProtocol`: the lease table, and any number of controllers, each with a clock of its own, that claim,
  record, renew, release and die at once; a claim is a look at the clock, a later read and a later conditional write.
- `JobInputs`: the stored input of a job, its START and END rows, and every process that touches them.
- `Access`: blocking and unblocking an account's Services, concurrently, under version checks.
- `LedgerText`: the text of the account files, parsed, formatted and cut into lines.
- `LedgerIds`, `GroupLines`: issuing and reclaiming uids and gids over whole histories.
- `Accounts`, `Creation`, `AccountFiles`: creating an account write by write, rolling it back, and judging an
  interrupted attempt.
- `Deletion`: deleting an account, and the evidence on which an absent one counts as deleted, over whole histories
  of files and journal.
- `Ports`, `PortChange`: allocating external ports and changing a running Pod's ports.
- `NasCache`, `NasProtocol`: the flush of the NAS's cached group lists by uncoordinated reconcilers.
- `Password`: a password change over three replicas with compensation.
- `Metrics`, `Wilson`, `ShaCrypt`: the counts and intervals of the evaluation, and the text form of a digest.

Parts the source works on in place are classes whose methods are proved against specification functions; calls to
the cluster, the database, the NAS and the clock are parameters that may answer, fail, take effect without
answering, or be the point where the process dies. The main results are the lemmas and methods named below.

## Where the code and its promises differ

Each of these is a lemma: a concrete run, the exact condition under which the promise holds, or both.

- A claim does not always resume from exactly what is stored: its read takes no lock. It may get less or more
  (`LeaseProtocol.ClaimMayLag`, `ClaimMayRunAhead`); `ClaimIsExactWhen` has the exact condition.
- Two controllers can take the lease they have both read, exactly when its owner writes it again from the same clock
  reading (`LeaseProtocol.SecondWinnerExactly`, `RepeatedReadingLetsTwoWin`, `ReturnedLeaseMisleads`).
- With `STEP_MAX_ATTEMPTS` at zero or below a step returns normally without having run (`Engine.DoneMeansRan`).
- A controller that dies after earlier steps have been undone, by a failing step or by the compensation of a failed
  job, and before a rewind or the end is recorded, leaves a job whose successor skips the undone steps
  (`History.DeathBeforeTheRewind`, `DeathAfterAFinalFailure`, `DeathAfterCompensation`). So does one that lives but
  whose END row, parking and release of the lease all fail (`ClosingWithoutARecord`). `MissingExactlyWhenLost` has the
  exact condition.
- A delete of the input that is on its way while its key is registered again takes the new job's input
  (`JobInputs.TwoFinishersMakeItUnclear`).
- The rollbacks inside the account, home and Kerberos steps do not pass on the number of the personal group. If the
  group is not named like the account its line stays, and every attempt under a new uid stops at a conflict
  (`Creation.StuckExactlyWhen`, `Creation.LaterRollbackBlocksExactlyWhen`).
- A judge that dies inside its own rollback leaves group lines, or a shadow line, that nobody takes back
  (`Creation.ResumeReachesTheSameFiles`, `Creation.CutJudgeBlocksUntil`).
- A shadow line or sudoers file left over from an earlier account lets the judge accept an attempt before that part
  was written (`Creation.JudgeAcceptsExactly`).
- A deletion that failed at its first write counts as evidence although it removed nothing
  (`Deletion.FailedFirstWriteCounts`); `Deletion.AbsenceRestsOnARemovalUnless` says that this is the only exception.
- An issue record behind an existing account leads to that account's number being issued again
  (`LedgerIds.RecordBehindReissues`).
- The flush gate rests on modification times that every write moves beyond the recorded one and beyond that of every
  reconciler at work on the old content (`NasProtocol.MisleadsExactly`, `NasProtocol.UnmovedTimeHidesTheChange`).

## Model

| member | source | states |
|---|---|---|
| Plans.PlansAreWellFormed | config-server/application/jobs.py:294-340 | for every kind of job and every mode the plan has no step twice, a deferred step is followed by its partner, and every restart point lies behind the step that names it; without the last, going back would skip steps |
| Plans.StepsFollowTheirPrerequisites | config-server/application/jobs.py:294-340 | in every plan each step comes after the steps it rests on: Services go before the rows of their ports and both before the Pod, an account goes only after the check that nobody uses it, what is verified is verified after it was done |
| Plans.JobsHaveTheirSteps | config-server/application/jobs.py:294-340 | which jobs have a step, and in which mode: an account is made only for a new one, a home is deleted by its own job alone and by no revocation, and the mode decides about nothing but the probes |
| Engine.ExecuteStep | config-server/application/jobs.py:204-274 | the retry loop, with every exit of the source: baseline, final errors, restart points, looked-up unknown results, rejected requests, exhausted attempts |
| Engine.CallEndsByItsLast | config-server/application/jobs.py:217-274 | outside the baseline the outcome is read off the last attempt: done, lost, rewound, failed and given up each if and only if that attempt was of its kind, and every attempt before it was an ordinary failure that could be tried again within the limit |
| Engine.AppliesAtMostOnce | config-server/application/jobs.py:217-274 | a step with an observer applies its effect at most once in one call and returns normally only with the effect in place, for every pattern of failures and lost answers that keeps the promises of the step functions |
| Engine.NeverRerunAfterUnknown | config-server/application/jobs.py:251-262 | a step with neither an observer nor a rerun-safe mark is never run again after an unknown result |
| Engine.OnlyTheFlushIsUnresumable | config-server/application/jobs.py:67-87 | of all steps that is the NAS flush alone: every other can be looked up or run again |
| Engine.DoneMeansRan | config-server/application/jobs.py:211-233 | a normal return rests on a last attempt that returned or was seen to have taken effect; it comes without any attempt exactly when the attempt limit read from the environment is zero or negative |
| Runner.RunJob | config-server/application/jobs.py:622-673 | the job loop over position, finished list and rewinds computes the pass function and terminates by remaining rewinds, then remaining steps |
| Runner.TakeTurn | config-server/application/jobs.py:627-673 | one turn of that loop, with skip, defer, judge, rewind and record |
| RunnerLaws.RunReplays | config-server/application/jobs.py:622-673 | what the loop computes is what its observable moves do one by one, so a crash leaves the state after some prefix of them |
| RunnerLaws.EveryMoveHasItsCause | config-server/application/jobs.py:627-673 | every move of a pass happens for its reason: the step's kind, the answer its call or its look came to, or the answer of the record |
| RunnerLaws.PassEndsByItsLastAnswer | config-server/application/jobs.py:622-676 | a pass stands down if and only if its last answer was a record refused because the owner had changed or an attempt that had lost the lease; it ends as failed, given up or skipped if and only if its last answer was of that kind |
| RunnerLaws.AttemptsAreBounded | config-server/application/jobs.py:204-274 | the attempts of a whole pass are at most the rewind limit times the plan length times the larger attempt limit, for every plan and failure pattern |
| RunnerLaws.MovesKeepSound | config-server/application/jobs.py:627-673 | every move keeps the finished list an initial segment of the plan's recordable steps, reaching at least to the walk's position |
| RunnerLaws.GoBackKeeps | config-server/application/jobs.py:655-657 | dropping the suffix of a rewind leaves exactly the recordable steps before the restart point |
| RunnerLaws.SuccessIsComplete | config-server/application/jobs.py:627-673 | a pass that ends well without a skip has every recordable step in its list |
| RunnerLaws.PassKeepsSegment | config-server/application/jobs.py:622-673 | a whole pass started from an initial segment ends with one |
| RunnerLaws.LastMoveEnds | config-server/application/jobs.py:622-676 | a pass always ends in one of the engine's ends |
| RunnerLaws.RunDeclared | config-server/application/jobs.py:647-657 | a pass goes back only to declared restart points if its steps name only those |
| RunnerLaws.ReplayIsSound | config-server/application/jobs.py:622-673 | any sequence of moves of a pass, cut anywhere, leaves an initial segment |
| History.SuccessMeansAllInOrder | config-server/application/jobs.py:622-673 | over any number of crashes, resumes and rewinds, a success that was not a skip means every recordable step was completed, last completions follow plan order, and a deferred step's last completion precedes its partner's |
| History.RunsOnlyAfter | config-server/application/jobs.py:639-646 | a step runs only when every recordable step before it is stored as finished and has been completed |
| History.OldPodGoesLast | config-server/application/jobs.py:305-311 | a migration cleans up the old Pod only after the new Pod, its readiness and its Services and, in full mode, all five access probes have been completed and recorded |
| History.UndoneExactly | config-server/lifecycle_steps/provision.py:1731-1777 | effects are taken away by a move only if it is the failure of a step with a restart point, and only those of steps at that point or behind it |
| History.CompensatedExactly | config-server/application/jobs.py:509-534 | the compensation comes only after a failed or interrupted pass whose list has the principal, and takes away the account and what follows it up to the AD groups |
| History.MissingExactlyWhenLost | config-server/application/jobs.py:647-706 | at a success the effect of a recorded step is missing if and only if a controller left in the window: after a failing step, a final failure or the compensation had undone the step while it was stored as finished, it died, or closed the job with END row, parking and release all failing, before a rewind or the end was recorded; and the step was not completed again since |
| History.NothingMissingWhenRecorded | config-server/application/jobs.py:647-706 | if whoever undoes a step gets to record the rewind or the end, or at least to release the lease, before a controller leaves, every success finds all effects in place |
| History.DeathBeforeTheRewind | config-server/lifecycle_steps/provision.py:1731-1748 | a run that ends in success without the account: the home step takes the account back and the controller dies before it records the rewind |
| History.DeathAfterAFinalFailure | config-server/lifecycle_steps/provision.py:1744-1748 | the same after a failure of the home step that is not to be tried again |
| History.DeathAfterCompensation | config-server/application/jobs.py:509-534 | the same after a later failure whose compensation has deleted the account |
| History.ClosingWithoutARecord | config-server/application/jobs.py:487-507 | the same without any death: END row, parking and release of the lease all fail |
| History.PassIsAHistory | config-server/application/jobs.py:565-676 | resuming a job and running the loop to its end, whatever its failing steps undo, is one of these histories |
| History.DisplacedStandsDown | config-server/application/jobs.py:670-706 | a controller whose last answer was that it is no longer the owner neither compensates nor closes the job |
| Lease.JobControl.Claim | config-server/adapters/job_control.py:41-74 | an undisturbed claim, by owner and time: a lease of somebody else whose time lies ahead turns it away and stands; a lease whose time has come, one's own and none are taken with their list until the new time; other jobs' rows stand |
| Lease.JobControl.RecordStep | config-server/adapters/job_control.py:77-100 | the list is stored by the owner alone; a match that changes nothing is told from a lost lease by a second look |
| Lease.JobControl.Renew | config-server/adapters/job_control.py:103-118 | exactly the listed leases still held are extended |
| Lease.JobControl.Release | config-server/adapters/job_control.py:121-130 | the row goes only if it is still the caller's |
| LeaseProtocol.StoredIsAlwaysASegment | config-server/adapters/job_control.py:41-130 | under every interleaving of clock readings, reads, swaps, records, renewals, releases and deaths the stored list is an initial segment of the plan's recordable steps |
| LeaseProtocol.ReadLooksAtTheTime | config-server/adapters/job_control.py:50-63 | somebody else's lease is passed by while its time lies ahead and goes on to the swap once it does not; a free row and one's own always do |
| LeaseProtocol.TakesOnlyExpired | config-server/adapters/job_control.py:60-72 | in any run a process that takes a lease from another read the clock at or after that lease's time |
| LeaseProtocol.LiveLeaseIsSafe | config-server/adapters/job_control.py:60-72 | in any run an owner whose leases reach beyond everything the others read of the clock stays the owner until it releases the lease itself |
| LeaseProtocol.DisplacedNeverWrites | config-server/adapters/job_control.py:77-130 | a process that is not the owner never changes the row again before it begins a new claim |
| LeaseProtocol.ClaimWinsExactly | config-server/adapters/job_control.py:64-71 | after any actions of the others a claim wins if and only if the lease it read is untouched, or the last thing that happened to it is that its owner wrote that very lease again from the same clock reading; and the swap is not for the same values |
| LeaseProtocol.SecondWinnerExactly | config-server/adapters/job_control.py:60-72 | once somebody has won, a rival whose read dates from before wins as well if and only if the owner of the lease the rival read has since written that very lease again from the same reading, as the last thing that happened to it |
| LeaseProtocol.AtMostOneWinner | config-server/adapters/job_control.py:48-72 | so of the processes that have read a lease, its own owner included, at most one takes it, if that owner does not use the one reading again from which the lease was written; clocks may disagree |
| LeaseProtocol.RepeatedReadingLetsTwoWin | config-server/adapters/job_control.py:64-71 | if the owner reads the same time for a second claim, two processes that read its lease can both take it |
| LeaseProtocol.WinnerTookWhatItRead | config-server/adapters/job_control.py:64-71 | on the same condition the winner takes exactly the lease it read: nobody has written or removed it since |
| LeaseProtocol.ClaimMayLag | config-server/adapters/job_control.py:50-72 | the list a claim hands on may be shorter than the stored one |
| LeaseProtocol.ClaimMayRunAhead | config-server/adapters/job_control.py:50-72 | after a rewind between its read and its swap it may be longer, and the undone step is skipped |
| LeaseProtocol.ClaimIsExactWhen | config-server/adapters/job_control.py:50-72 | in any run a winning claim resumes from exactly what is stored if and only if no list was written to the row between its read and its swap, or the last one written is the list it read, an inserted row counting as an empty list; a claim that found no row is exact |
| LeaseProtocol.OnlyTheSeenOwnerMisleads | config-server/adapters/job_control.py:50-72 | if the owner whose lease was read does not use its reading again, every list written in between is one it recorded, and without such a record the claim is exact |
| LeaseProtocol.ReturnedLeaseMisleads | config-server/adapters/job_control.py:50-72 | if it does, a claim can be inexact although nobody has recorded anything |
| Access.Cluster.SetAccess | config-server/lifecycle_steps/access.py:57-93 | the step undisturbed: a failed listing fails it and changes nothing, it stands down exactly when the listing holds a later decision, and otherwise patches every Service below its own; what a call that fails midway leaves |
| Access.Cluster.PatchStale | config-server/lifecycle_steps/access.py:70-78 | the patch loop leaves a prefix of the listing at the maximum and the rest untouched |
| Access.EachServiceHoldsTheMaximum | config-server/lifecycle_steps/access.py:50-78 | under any interleaving, cutting off and replaying of jobs each Service holds the greatest of its initial state and the decisions that patched it |
| Access.SuccessReachesTheSnapshot | config-server/lifecycle_steps/access.py:64-93 | a job that reports success leaves every Service of its snapshot at or above its own decision |
| Access.GreatestDecisionStands | config-server/lifecycle_steps/access.py:57-93 | once the greatest decision of a run has succeeded, every Service of its snapshot has its state and keeps exactly that state for good |
| Access.JobRunsThrough | config-server/lifecycle_steps/access.py:57-93 | a job of that protocol that nobody disturbs can list, patch in any order and report success, and leaves what the step leaves; with a later opposite decision in the way it does nothing |
| JobInputs.MissingInputMeansEnded | config-server/application/jobs.py:487-507 | if every START row is written while the input is there and no delete is on its way, a missing input means every job of the key has ended, and no job is reported as JOB_INPUT_MISSING, stale lists and failed END rows included |
| JobInputs.UnclearStartCanBeLost | config-server/main.py:1185-1205 | any START row written otherwise can lose its input to a delete already on its way, and is then reported missing although it never ran: the condition is exact |
| JobInputs.TwoFinishersMakeItUnclear | config-server/application/jobs.py:582-598 | two controllers that finish the same job lead to such a START row |
| JobInputs.OrphanIsReported | config-server/application/jobs.py:582-598 | a START row without an input and without an END row is reported as JOB_INPUT_MISSING by the next controller |
| JobInputs.ReportedMissingExactly | config-server/application/jobs.py:582-598 | a controller without an input drops the job exactly when it sees an END row behind its START row, and reports the input as missing otherwise, also when the journal cannot be asked |
| JobInputs.ParkedIsNotRunAgain | config-server/application/jobs.py:487-507 | a finished job that is parked because its END row may be missing is not run again nor reported missing, unless its input is deleted or a controller that had read it before marks it as running |
| LedgerText.FieldsAreUnique | config-server/utils.py:963-964 | cutting at colons finds the one way to read a line as so many colon-free fields and a rest, which is what the expressions match |
| LedgerText.PasswdReadsExactly | config-server/utils.py:963-1000 | a line is read as a passwd entry if and only if it is its seven fields, with a name and two numbers, and perhaps a newline at the end |
| LedgerText.GroupReadsExactly | config-server/utils.py:964-1032 | the same for a group line, whose empty members are dropped |
| LedgerText.ShadowReadsExactly | config-server/utils.py:1040-1068 | the same for a shadow line, whose day counts may be empty |
| LedgerText.PasswdRoundTrip | config-server/utils.py:993-1022 | what the passwd formatter accepts is read back unchanged if and only if the name is not empty |
| LedgerText.GroupRoundTrip | config-server/utils.py:1025-1037 | the same for a group line, if and only if name and members are not empty and no member holds a comma |
| LedgerText.ShadowRoundTrip | config-server/utils.py:1056-1080 | the same for a shadow line, empty day counts included |
| LedgerText.ReformatIsIdempotent | config-server/utils.py:1025-1037 | a group line that is rewritten says the same and rewrites to itself |
| LedgerText.RewritingRefusesExactly | config-server/utils.py:993-1037 | a group line of the file is refused when it is rewritten if and only if one of its members holds a colon |
| LedgerText.DecimalRoundTrip | config-server/utils.py:998-999 | numbers of any size survive being written and read |
| LedgerText.ReadBack | config-server/utils.py:967-990 | what is written line by line is read back line by line |
| LedgerText.LastNewlineIsNotDoubled | config-server/utils.py:973-977 | a last line that brings its newline along is read back without it, and no empty line after it |
| LedgerText.LineEndsAtBreak | config-server/utils.py:967-970 | a text is cut at every line break, and a carriage return with its newline is one |
| LedgerText.AppendedLineSurvives | config-server/utils.py:1003-1013 | a line added to a file comes back as itself with the others as before if and only if it holds no character that breaks a line |
| LedgerText.LedgerFile.AddPasswd | config-server/utils.py:1016-1022 | adding an entry leaves exactly the old records and the new one |
| LedgerText.LedgerFile.AddGroup | config-server/utils.py:1035-1037 | the same for a group entry |
| LedgerText.LedgerFile.AddShadow | config-server/utils.py:1071-1080 | the same for a shadow entry |
| LedgerText.LedgerFile.Read | config-server/utils.py:967-970 | no line read holds a line break |
| LedgerText.LedgerFile.Write | config-server/utils.py:973-977 | lines without line breaks come back as they were written |
| LedgerIds.AllocateNextUid | config-server/lifecycle_steps/provision.py:1428-1442 | the loop computes the next uid |
| LedgerIds.NextUidIsLeast | config-server/lifecycle_steps/provision.py:1428-1442 | the next uid is the least unused number above every account with a home under /home and a number of the range, every number issued and the start of the range |
| LedgerIds.LookUpFindsExactly | config-server/lifecycle_steps/provision.py:1465-1489 | the number a person is looked up under: that of the home under the name, if the name has no account and the number is among the candidates |
| LedgerIds.CreateHandsExactly | config-server/lifecycle_steps/provision.py:1493-1607 | which number a creation hands out: the old one to a person who returns, if it lies in the band and no account, group or other home has it, a refusal otherwise; to anybody else the next one, if the band has one |
| LedgerIds.ReturningGetsTheOldNumber | config-server/lifecycle_steps/provision.py:1465-1519 | so who returns gets the account under the old number if and only if that number is free for it, and never another number |
| LedgerIds.HomeIsMadeOnce | config-server/lifecycle_steps/provision.py:1720-1748 | a home is made for a number its name holds, and one that is there keeps its owner |
| LedgerIds.HomeKeepsItsOwner | config-server/lifecycle_steps/provision.py:1720-1748 | through any history, until it is dropped |
| LedgerIds.NumbersAreNeverShared | config-server/lifecycle_steps/provision.py:1549-1607 | over any history of creations, returns, removals, homes and deaths between recording and writing: automatic uids strictly increase, a number is only ever given to the name that has held it, names and uids of passwd stay unique |
| LedgerIds.RecordBehindReissues | config-server/lifecycle_steps/provision.py:1428-1442 | if the issue record is behind a managed account of the band, some history gives that account's number to a stranger |
| LedgerIds.NumbersStayExactlyWhenCovered | config-server/utils.py:938-957 | from a sane start no history gives a number to two names if and only if the issue record covers the managed accounts of the band |
| LedgerIds.SkipUsed | config-server/lifecycle_steps/provision.py:1440-1442 | stepping over used numbers finds the first free one |
| GroupLines.AllocateNextGid | config-server/lifecycle_steps/provision.py:1444-1459 | the loop computes the next gid |
| GroupLines.NextGidIsLeast | config-server/lifecycle_steps/provision.py:1444-1459 | the next gid is the least unused number above every managed group, every number issued and the start of the band, 65534 excepted |
| GroupLines.GroupFile.IssueSharedGid | config-server/lifecycle_steps/group.py:79-91 | when a number is refused and which one is given |
| GroupLines.GroupFile.SharedGroupGid | config-server/lifecycle_steps/group.py:98-130 | a group name gets one number for good: asked again it is the same and nothing changes; a new one is new to file and record and stays recorded if the process dies before the line; which refusal comes when |
| GroupLines.GroupFile.WriteGroupLine | config-server/lifecycle_steps/group.py:171-200 | when a line is taken over, written or refused, with its members in order, and that every other line stands in its place |
| GroupLines.MembersAreSorted | config-server/lifecycle_steps/group.py:195 | the members written are those asked for, each as often, in increasing order |
| GroupLines.GroupFile.TakeOver | config-server/lifecycle_steps/group.py:181-196 | a line with another number or with members not asked for is left alone |
| GroupLines.GroupFile.Append | config-server/lifecycle_steps/group.py:189-199 | the number is recorded before the line is written |
| Accounts.RollBackTouchesOnlyTheName | config-server/lifecycle_steps/provision.py:1402-1426 | a rollback leaves no line, password, membership or empty personal group of the name and changes nobody else |
| Accounts.TakeOutLeavesLines | config-server/lifecycle_steps/provision.py:1413-1426 | taking a user out of the group file, by name and number or by number alone: every line stands in its place with its name and number and its members less the user, emptied shared groups and lines that do not parse included, and the user's own group goes if and only if nobody else is in it |
| Accounts.RollBackLeavesLines | config-server/lifecycle_steps/provision.py:1402-1426 | a rollback does that to the group lines |
| Creation.JudgeAcceptsExactly | config-server/application/jobs.py:120-189 | cut off after any write, an attempt is judged finished if and only if its passwd line was written and every part still to be written had been there before |
| Creation.JudgeAcceptsTheFinished | config-server/application/jobs.py:139-189 | from a clean start it is judged finished exactly when it had finished |
| Creation.RefusalRestores | config-server/application/jobs.py:169-177 | a refused attempt is taken back completely, but for empty lines of teams it had to write |
| Creation.ResumeReachesTheSameFiles | config-server/application/jobs.py:139-189 | wherever an attempt is cut off, and wherever the rollbacks of the judges after it are cut off in turn: the account is judged finished if and only if it is; otherwise the next attempt meets a conflict if and only if the group lines were written, a judge died between the first and last write of its rollback, and the uid is a new one; if it meets none it reaches the same files as undisturbed, up to the order of group lines, if and only if no judge died between the passwd and the shadow write of taking back a shadow line |
| Creation.CutJudgesOnce | config-server/application/jobs.py:160-177 | of any number of judges that die, only the first that makes a write changes the files |
| Creation.CutJudgeBlocksUntil | config-server/application/jobs.py:169-177 | after such a death every attempt under another uid stops at the conflict if the personal group is not named like the account, and only the first does if it is |
| Creation.StuckExactlyWhen | config-server/lifecycle_steps/provision.py:1662-1710 | after a failure inside the step the n-th later attempt under another uid meets a personal group conflict if and only if the groups had been written, the rollback began, and either the personal group is not named like the account or the rollback died midway and the attempt is the first |
| Creation.LaterRollbackBlocksExactlyWhen | config-server/lifecycle_steps/provision.py:1731-1777 | the rollback of the home and Kerberos steps blocks every repeated account step under a new uid if and only if the personal group is not named like the account |
| Creation.GroupsWrittenPresent | config-server/lifecycle_steps/provision.py:1616-1661 | the group part once written is complete |
| Creation.FinishedInFiles | config-server/lifecycle_steps/provision.py:1616-1710 | a finished creation in terms of the files: one passwd line of the name with the uid as both numbers, one shadow line with the hash asked for, the sudoers file if asked for, every old line in its place, the personal group under the uid, and exactly the teams' memberships more |
| Creation.CutOffInFiles | config-server/lifecycle_steps/provision.py:1660-1710 | cut off, the files hold exactly the parts written so far, in the order passwd, groups, shadow, sudoers |
| Creation.AddToTeamsAtOnce | config-server/lifecycle_steps/provision.py:1639-1659 | adding to teams one after the other is adding to all at once and appending the missing lines in order |
| Creation.AddToTeamsAddsExactly | config-server/lifecycle_steps/provision.py:1833-1854 | the user gets exactly the listed memberships and nobody else's change |
| Creation.AddingAgainChangesNothing | config-server/lifecycle_steps/provision.py:1813-1866 | adding twice is adding once |
| AccountFiles.Files.CreateAccount | config-server/lifecycle_steps/provision.py:1534-1718 | what a finished run has written to passwd, shadow, groups and sudoers, line by line; that a reported failure leaves no account, password or membership of the name; without a fault it finishes exactly when no conflict is in its way; which part a run breaks at, what each failure, each death and each cut-off rollback leaves, and that the judge accepts what a finished run has written |
| AccountFiles.Files.RollBackUser | config-server/lifecycle_steps/provision.py:1402-1426 | the rollback's three writes, cut off after any of them: passwd, then shadow, then the groups, of which every line but an empty one of the user's own stands |
| AccountFiles.Files.WriteGroups | config-server/lifecycle_steps/provision.py:1618-1661 | the group part and its conflict |
| AccountFiles.Files.AddUserGroups | config-server/lifecycle_steps/provision.py:1813-1857 | the step for an existing account |
| AccountFiles.Files.JudgeInterrupted | config-server/application/jobs.py:139-189 | the judge with its list of missing parts, when it accepts, and what it leaves when it dies during its rollback |
| Deletion.Controller.DeleteAccount | config-server/lifecycle_steps/revoke.py:387-497 | success means no passwd line, password or membership of the user is left and every other line stands in its place; otherwise which writes happened in which order, which outcome and which journal row; an absent account is settled by the journal alone |
| Deletion.Controller.SettleAbsent | config-server/lifecycle_steps/revoke.py:406-445 | an absent account: which outcome, by the deletions and creations on record and the fault; that nothing of the user is left on success and which file a break leaves; which row, naming the newest deletion as evidence |
| Deletion.Controller.RemoveLeftovers | config-server/lifecycle_steps/revoke.py:306-335 | what a half deletion left is cleared, writing only the files in which something is left; a break leaves the groups as they were |
| Deletion.DeletionTouchesOnlyTheUser | config-server/lifecycle_steps/revoke.py:448-482 | a whole deletion and a clearing remove the user's lines and memberships; every group line stands with its name, number and other members, emptied shared groups included, but for the user's own if nobody else is in it |
| Deletion.AbsentSettledExactly | config-server/lifecycle_steps/revoke.py:406-445 | how an absent account is settled, by the journal alone: accepted if and only if a deletion of the name is recorded with no creation recorded after it, and which fault leads to which outcome |
| Deletion.AbsenceRestsOnARemovalUnless | config-server/lifecycle_steps/revoke.py:337-384 | in any history of files and journal an account accepted as absent was deleted before by a deletion that found its line in passwd, with no creation recorded in between at lookup; that deletion took the line out if and only if it did not fail at its very first write; absences never justify each other |
| Deletion.FailedFirstWriteCounts | config-server/lifecycle_steps/revoke.py:346-350 | a run on files and journal in which an account counts as deleted although no deletion ever took its line out |
| Ports.Stores.AllocateNodeports | config-server/lifecycle_steps/provision.py:167-250 | new internal ports get the lowest ports that no row and no visible Service has, in order, all of them or none, and refusal means too few are free; the table stays free of duplicates |
| Ports.AssignedKeepsUnique | config-server/lifecycle_steps/provision.py:189-239 | rows on free ports for internal ports the Pod does not have keep external ports unique |
| Ports.Stores.Reconcile | config-server/lifecycle_steps/provision.py:95-139 | only rows of Pods past their grace without any live Service go |
| Ports.Stores.DeleteServices | config-server/lifecycle_steps/port.py:102-105 | Services go one by one, the others stay, and with enough calls all of them go |
| Ports.Stores.Release | config-server/lifecycle_steps/port.py:44-55 | the rows of dropped ports go in one transaction, which keeps every live Service backed because those Services are gone |
| Ports.Stores.CreateServices | config-server/utils.py:541-573 | every created Service stands on the port of its row; it stops only for want of calls, or at a port that is held |
| PortChange.ChangePorts | config-server/lifecycle_steps/port.py:81-131 | however it ends, after any number of writes, every live Service has its row and external ports are unique; other Pods, protected and kept ports are untouched; success means exactly the wanted extra ports with a Service each, and a further run changes nothing; with enough calls and free ports and nobody on the Pod's ports it succeeds, and it reports a taken port only if one is held |
| PortChange.DropThenAdd | config-server/lifecycle_steps/port.py:97-112 | the rows reach the wanted list, or a prefix of the writes is done |
| PortChange.DropPorts | config-server/lifecycle_steps/port.py:103-107 | Services before rows |
| PortChange.AddRows | config-server/lifecycle_steps/port.py:109-112 | rows before Services |
| PortChange.FillIn | config-server/lifecycle_steps/port.py:114-122 | every wanted port without a Service at listing time gets one |
| NasCache.WantedByUser | config-server/reconcile_krb5.py:135-150 | every account, groups or none, and every member of a shared group, each with exactly the shared groups the group file has him in |
| NasCache.SharedGids | config-server/reconcile_krb5.py:117-132 | the shared gids the ledger knows |
| NasCache.Stack.Reconcile | config-server/reconcile_krb5.py:182-245 | the cache is flushed and the time recorded if and only if the ledger is newer than the record, the NAS has every user in exactly those shared groups in which the ledger has him, and nothing failed |
| NasProtocol.RecordedMeansSettled | config-server/reconcile_krb5.py:158-245 | with any number of reconcilers, ledger writes, NAS refreshes and new contexts, as long as no write may mislead: whenever the record has reached the ledger's time, the NAS has agreed about every user since the last change and every live context of a user was pinned after that |
| NasProtocol.MisleadsExactly | config-server/reconcile_krb5.py:178-245 | the condition on writes is exact: some content written with a given advance ends in a flush recorded for it while not everybody is settled, if and only if the new time is not beyond the recorded one or not beyond that of a reconciler that has read the old accounts and can still finish |
| NasProtocol.AdvancingWritesDoNotMislead | config-server/reconcile_krb5.py:200-210 | a run whose writes all move the time forward has no such write |
| NasProtocol.RecordedMeansRightGroups | config-server/reconcile_krb5.py:182-196 | if the NAS does not go back on an agreement, every live context of a ledger user then holds exactly the groups the ledger gives him |
| NasProtocol.UnmovedTimeHidesTheChange | config-server/reconcile_krb5.py:200-245 | after a write that does not, a context with the wrong groups keeps them through any run of reconcilers until it expires or the ledger is written again |
| Password.Account.Job | config-server/lifecycle_steps/password.py:18-51 | through all retries, lost answers and deaths: success means the new hash in ledger, Secrets and running Pods; a reported rollback means the original hash in all three |
| Password.Account.Change | config-server/lifecycle_steps/password.py:29-51 | one attempt, with what each outcome means, that an absent account is reported as such and a ledger call that fails as that, and when a rollback cannot be reported |
| Password.Account.Restore | config-server/main.py:1041-1060 | a rollback counts only if every place took the old hash, and a hash no Secret may hold never does |
| Password.Account.UpdateSecrets | config-server/utils.py:423-445 | the Secret loop stops at the first failure, of the listing or of a write, and passes over Pods without a Secret |
| Password.Account.SyncRunningPods | config-server/utils.py:339-378 | the Pod loop tries every Pod and is whole only if all took the hash |
| Password.Account.SetLedger | config-server/main.py:1025-1038 | the old hash is returned and the new one stored |
| Metrics.StrataAddUp | harness/metrics.py:168-198 | for every rate each of the three counts, summed over the environment strata, equals the count over all trials |
| Metrics.StrataAreSorted | harness/metrics.py:182-187 | the strata have distinct keys and each holds exactly the trials of its key, in order |
| Metrics.RatesAreShares | harness/metrics.py:109-158 | counted and undecided trials together never exceed the trials a rate is taken over |
| Metrics.SafeRecoveriesAreVerified | harness/metrics.py:114-134 | safe recoveries are at most verified completions, also counting the undecided |
| Metrics.DeclaredTrialsSplit | harness/metrics.py:111-134 | safe, undecided and incorrect completions are different declared trials |
| Metrics.CountsIncorrect | harness/metrics.py:111-116 | incorrect completions are the declared trials found wrong at declaration |
| Metrics.CountsUnknown | harness/metrics.py:111-117 | those that could not be checked then |
| Metrics.CountsVerified | harness/metrics.py:113-119 | verified completions are the declared trials in order at the end, of all trials |
| Metrics.CountsSafe | harness/metrics.py:122-134 | safe recoveries are declared, not wrong then, and in order at the end with bystander and duplicates; undecided when nothing is known to be wrong and something is unknown |
| Metrics.CountsResidual | harness/metrics.py:138-147 | residual access is a declared revocation with access left at the end or in any sample; undecided when none is known and one is unknown |
| Metrics.CountsDuplicates | harness/metrics.py:149-150 | duplicates are the trials with a resource twice |
| Metrics.CountsViolations | harness/metrics.py:151-153 | violations are the trials with a bystander that was harmed, of those with one |
| Metrics.DeclarationRates | harness/metrics.py:111-117 | the counts at declaration |
| Metrics.VerifiedCompletions | harness/metrics.py:113-119 | the counts of verified completions |
| Metrics.SafeRecoveries | harness/metrics.py:122-134 | the loop over recoverable trials |
| Metrics.Residuals | harness/metrics.py:138-147 | the loop over revocations |
| Metrics.ResourceRates | harness/metrics.py:149-153 | duplicates and protection violations |
| Metrics.Stratify | harness/metrics.py:182-185 | the grouping loop |
| Wilson.BoundsHoldWithoutClamping | harness/metrics.py:30-37 | in exact reals 0 <= lo <= k/n <= hi <= 1, and the clamping changes nothing |
| Wilson.IntervalIsTheScoreTest | harness/metrics.py:34-37 | the interval is exactly the set of shares the score test does not reject |
| Wilson.Mirror | harness/metrics.py:30-37 | the interval of the failures is the mirror image of that of the successes |
| ShaCrypt.OrderIsAPermutation | harness/sha512_crypt.py:15-18 | the byte order and the last byte name each of the 64 bytes exactly once |
| ShaCrypt.EncodingIsInvertible | harness/sha512_crypt.py:60-61 | every byte of every 64-byte digest can be read back from the 86 characters |
| ShaCrypt.EncodingIsInjective | harness/sha512_crypt.py:60-61 | different digests have different texts |
| ShaCrypt.WriteB64 | harness/sha512_crypt.py:21-26 | the loop writes six bits a character, low bits first |
| ShaCrypt.ReadBack | harness/sha512_crypt.py:21-26 | a number that fits can be read back from its characters |
| ShaCrypt.Encode | harness/sha512_crypt.py:60-61 | the output loop writes the encoding |
| ShaCrypt.RepeatIsCyclic | harness/sha512_crypt.py:29-30 | a stretched digest has exactly the length asked for and is cyclic |

## Left out

- The content of the saved context: `SAVED_CTX_KEYS` does not carry every key a later step reads, and no claim is made about it.
- Preparatory hooks of steps (`PRE_STEP`), fault injection, journal RETRY rows and the delays between attempts.
- History: one controller at a time. What a displaced controller still does to the effects of steps while its successor works is not modelled, nor that a claim may hand on another list than the stored one; `LeaseProtocol` has both for the record.
- `_compensate_provision`: the check that nobody uses the account, and that a compensation runs at most once; in `History` it is whatever part of its effects it takes away.
- A single END row per job: finishing does not check the lease, so a displaced controller can still write one.
- Job kinds other than by their plans: what each step does to Pods, images, Kerberos and AD is an abstract effect.
- Engine.AppliesAtMostOnce: rests on the steps' own promises, which are a precondition, because the step bodies talk to systems outside the model.
- History.OldPodGoesLast: for plans only; that the probes test the new Pod and not the old one is not modelled.
- JobInputs.MissingInputMeansEnded: a registration whose START row is written although the call reports a failure is not modelled, and no input is lost by the store itself.
- Access.GreatestDecisionStands: for the Services of the job's snapshot; Services created by other jobs after the decision are not covered.
- Access: an annotation that is not a number counts as time 0, as in the source; the parsing itself is not modelled.
- LedgerText: digits are ASCII; the source's `\d` and `int` also take other decimal digits, and Python refuses numbers of more than 4300 digits.
- LedgerText: fields are text, so the default values a caller may omit are not modelled.
- LedgerIds.NumbersAreNeverShared: homes are made only under numbers that were issued to their name, as the home step does; homes made by hand are outside the model.
- LedgerIds: two requests of one person that reclaim the same old uid are a documented limit of the source.
- Creation: the shared gid record is not raised when a missing team line is written, and the passwd fields other than name and numbers are left out.
- Creation.ResumeReachesTheSameFiles: up to the order of group lines, which does differ after a resumed attempt.
- Creation: that the judge puts the marked uid forward as a candidate for the next attempt; the next uid is any number.
- Creation.RefusalRestores: from a clean start, because leftovers of an earlier account change the judge's answer as `Creation.JudgeAcceptsExactly` states.
- `_set_group_membership`: the same per-line rewriting as adding to teams.
- Deletion: the check that no other Pod still uses the account, and the Kerberos clean-up after it.
- Ports.Stores.Reconcile: Pods past their grace are a parameter; that a row's age protects a Pod that is just being created rests on timing.
- PortChange.ChangePorts: a Pod past its grace whose every Service is gone may lose rows to reconciliation, so the claims about its kept ports ask that it is not.
- NasProtocol.RecordedMeansSettled: accounts and groups are written in one step under one modification time; a write of passwd alone leaves the time as it is, and so is one that may mislead.
- Password.Account.Job: the user's Pods do not change during the job.
- Metrics: time quartiles, start states and the reading of result files.
- Wilson.BoundsHoldWithoutClamping: exact reals, not floating point.
- ShaCrypt: SHA-512 itself, its rounds and the choice of salts.
- Request checks, tokens, HTTP routes, image commits, GPU scoring and node selection.
- `k8s_account_manager.py`, the end-to-end runner and the collectors of the harness.
