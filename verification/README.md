# OmniSight backend cores in Dafny

Models of the parts of the repository that keep state, survive concurrent callers or transform
text and trees, with proofs of what they keep over whole runs and for all inputs.

| part | modules | source |
|---|---|---|
| hash-chained audit log | `Json`, `CanonicalJson`, `AuditChain`, `AuditWriters`, `AuditLog` | `backend/audit.py` |
| account lockout | `Arithmetic`, `Counting`, `LoginLockout`, `LoginSerial`, `LoginWindow`, `LoginBurst` | `backend/auth.py` |
| session rotation | `SessionRotation`, `SessionStore` | `backend/auth.py` |
| password history | `PasswordHistory`, `PasswordRuns`, `PasswordRaces` | `backend/auth.py` |
| AIMD concurrency budget | `AdaptiveBudget`, `BudgetConvergence`, `BudgetPersistence` | `backend/adaptive_budget.py` |
| schema drift gate and startup upgrade | `DriftGate`, `StartupUpgrade` | `backend/alembic_drift_gate.py`, `backend/alembic_startup_hook.py` |
| share redaction of blocks | `Strings`, `JsonTree`, `RedactionWalk`, `RedactionReasons`, `BlockRedaction` | `backend/block_redaction.py` |
| runner-owned TODO markers | `TodoMarkers`, `TodoRunner` | `auto-runner-codex.py` |
| font stack splitter | `FontStack` | `backend/brand_canonical.py` |
| placeholder rewrite | `PgPlaceholders` | `backend/alembic_pg_compat.py` |
| hint blackboard and limiter | `HintBoard`, `HintThreads` | `backend/agent_hints.py` |

Code that updates rows, files, dictionaries or module state in place is a class or a loop whose
contract ties the new state to a function of the old one; protocols with several actors are state
machines over the steps between which another actor can run, and their theorems quantify over
every run. Where a source function is both, the call that nothing interrupts is shown to be a run
of the machine with one actor (`LoginSerial.ServeIsSerialRun`, `AuditLog.LogIsSerialRun`,
`SessionStore.RotateIsSerialRun`, `PasswordRaces.ChangeIsSerialRun`, `PasswordRaces.LoginIsSerialRun`,
`HintThreads.InjectIsSerialRun`).

What is abstract. SHA-256 is any function into hex strings; nothing says that it has no
collisions, so the theorems about tampering give either the stated conclusion or two distinct hash
inputs, named by the lemma, with one digest. `AuditChain.SoundIsMet` shows that the assumptions on
the digest, on timestamps and on dumps and loads can be met together. Password hashes remember
the password they were made from, which is what a correct verifier can tell. Detectors of secrets,
addresses and personal data, the section filter of the runner, and whether a lock poll, a
password or an agent run succeeds are parameters or free choices. Clocks are readings passed in.

## What the source does where its documentation, or a natural reading, says otherwise

- Doubling of the lock length (`backend/auth.py:721-724`) never happens while attempts come one at a
  time: the count is cleared when a lock expires, so it meets the threshold exactly
  (`LoginLockout.SerialLocksNeverDouble`). It takes overlapping attempts, and k of them are enough to
  reach threshold + k - 1 (`LoginLockout.CountBoundIsTight`).
- A lock does not stop failures for its length when attempts overlap: one that read an older, expired
  lock clears the newer one (`backend/auth.py:852-858`). With k attempts in flight, T the threshold, a
  quarter of an hour without a success records at most k (T - 1) + k (k + 1) / 2 + min(k - 1, T - 1)
  failures (`LoginWindow.WindowBound`), and for every k a run records that many
  (`LoginBurst.WindowBoundIsMet`). For k = 1 this is T.
- `change_password` says that its transaction serialises two changes of one user
  (`backend/auth.py:625-639`). The read of the old hash takes no lock, so both can record the same
  one; `PasswordHistory.OverlapIff` says for both orders of the second insert and trim when the stored
  rows are the serial ones. If both come before the first commit, LIMIT + 1 rows can be left
  (`PasswordRaces.TrimsBeside`, `PasswordRaces.TrimsBesideRun`).
- A login writes its new hash over whatever the hash is by then (`backend/auth.py:868-880`), so one
  that overlaps a change takes the change back (`PasswordRaces.LateRehash`). Two submissions of one new
  password are both admitted when both are checked first (`PasswordRaces.SubmittedTwice`), and a change
  that commits between the two statements of a check hides the password it replaces
  (`PasswordRaces.SplitCheck`). `PasswordRuns.RunIff` gives the exact condition for any run: history and
  distinctness hold all along exactly when every rehash writes over the password it verified, and
  every commit still finds the password it read, rows that its trim fits, and a new password that has
  not been current, among the latest, since its check began.
- The history check also compares the current password, so not `PASSWORD_HISTORY_LIMIT` + 1 but
  + 2 passwords in a row are pairwise distinct (`PasswordRuns.RunIff`, `PasswordRuns.ReusedIff`).
- The header of `backend/alembic_drift_gate.py:39-46` describes drift as inclusion of head sets; the
  code asks for ancestry in the revision graph, and `DriftGate.ClassificationExact` states what that
  comes to. An image without migrations is called divergent although the database holds all its heads
  (`DriftGate.EmptyImageIsDivergent`), and for such an image an upgrade can start again after one
  succeeded (`StartupUpgrade.EmptyImageUpgradesAgain`).
- The advisory lock of the startup upgrade belongs to a session that is idle while the upgrade runs on
  other connections (`backend/alembic_startup_hook.py:82-91`). A worker that loses it goes on, so two
  upgrades can overlap (`StartupUpgrade.LostSessionOverlap`), and only then (`StartupUpgrade.UpgradesExclude`).
- A failed write of the budget is not tried again before the next change, because the dirty flag was
  cleared first (`BudgetPersistence.FailedWriteIsForgotten`); `BudgetPersistence.CleanStoredIff` says
  exactly when that leaves the row behind.
- Cutting rows off the end of an audit chain leaves a chain (`AuditChain.TruncationAccepted`), and a
  rewritten row with a fresh digest is reported at its successor, not at the row itself
  (`AuditChain.RehashReportedAtSuccessor`).
- A timestamp before 1970 is truncated toward zero, so unless it is a whole second the window of its
  dedupe check lies beside it (`AuditWriters.WindowIsSecondIff`), and the same event can be stored twice
  in its second (`AuditLog.StoredTwiceBeforeEpoch`, `AuditLog.RepeatStoredOnceIff`).
- The runner's `replace(…, 1)` marks the first place in the file where the picked text stands, which
  can be another line (`TodoMarkers.OtherLineMarked`); `TodoRunner.ReservesPickedIff` gives the exact
  condition. The counts are right either way.
- Redaction under a key that contains a dot raises or writes elsewhere. `BlockRedaction.LoopIsMapIff`
  says that the loop of writes is the recursive map exactly when no rewritten place lies under one;
  `BlockRedaction.DottedKeyRaises` and `BlockRedaction.DottedKeyMissed` are blocks of either kind.
- The hint limiter reads its clock before it takes its lock, so readings can come out of order. With
  readings up to d behind, exactly the windows of length at most window - d are safe, for any rate from
  2 on (`HintBoard.RateBoundIff`); with rate 1 the order does not matter (`HintBoard.RateOneBound`).
- `consume` clears the event after it releases the lock, and `inject` sets it after. With threads a
  wake-up can be lost (`HintThreads.ThreadedWakeupLost`) or come for nothing
  (`HintThreads.ThreadedWakeupEmpty`). With no call in progress, event and slot disagree exactly when the
  last call to write the slot ran inside one of the other kind, the last to write the event
  (`HintThreads.DisagreeIffEnclosed`); calls on one agent that do not overlap always leave them in agreement
  (`HintThreads.SerialEventTells`).

## Model

| member | source | states |
|---|---|---|
| LoginLockout.LockoutDuration | backend/auth.py:716-724 | a lock lasts between the base and the cap, and exactly the base up to the threshold |
| LoginLockout.LockoutDurationMonotone | backend/auth.py:721-724 | more failures never give a shorter lock |
| LoginLockout.LockoutDoubles | backend/auth.py:721-724 | from the threshold on every further failure doubles the length, up to the cap |
| LoginLockout.OnlyAdmitted | backend/auth.py:798-886 | in every run, whoever succeeds or is counted as a failure read an enabled user with no lock in force, with the right or a wrong password respectively |
| LoginLockout.OnlyLocksReject | backend/auth.py:848-865 | a check of the lock ends an attempt exactly when the lock it read is in force; otherwise lock and password decide the next step |
| LoginLockout.InvStep | backend/auth.py:727-763 | every step of every interleaved attempt keeps the bound on count plus pending increments |
| LoginLockout.CountBound | backend/auth.py:798-886 | with at most k attempts in flight the failure count never passes threshold + k - 1, in every run |
| LoginLockout.LockLengthBound | backend/auth.py:721-755 | every lock written lasts from the base to min(base * 2^(k-1), cap) |
| LoginLockout.SerialLocksNeverDouble | backend/auth.py:727-755 | with one attempt at a time every lock lasts exactly the base |
| LoginLockout.CountBoundIsTight | backend/auth.py:727-755 | for every k a run reaches threshold + k - 1 |
| LoginSerial.UserRow.RecordLoginFailure | backend/auth.py:727-755 | the row after a failure: count plus one, locked from the threshold on |
| LoginSerial.UserRow.ResetLoginFailures | backend/auth.py:758-763 | count and lock are cleared |
| LoginSerial.UserRow.AuthenticatePassword | backend/auth.py:798-886 | success exactly for an enabled user, the right password and no lock in force, a counted failure exactly for a wrong one; the row after each |
| LoginSerial.ServeIff | backend/auth.py:798-886 | exact conditions of the three outcomes and the row each leaves |
| LoginSerial.OutcomeIsActions | backend/auth.py:798-886 | the statements of an uninterrupted attempt write a success, or count a failure, exactly for that outcome |
| LoginSerial.ServeIsSerialRun | backend/auth.py:798-886 | the uninterrupted attempt is a run of the interleaving model with one slot |
| LoginWindow.StepDrops | backend/auth.py:798-886 | every step in the window lowers what can still be recorded in it by the failure it records, or does not raise it |
| LoginWindow.WindowBound | backend/auth.py:798-886 | in every run with at most k attempts in flight, LOCKOUT_BASE_S seconds without a success record at most MaxFailures(k) failures, whatever came before |
| LoginBurst.WindowBoundIsMet | backend/auth.py:798-886 | for every k a run with a window of exactly MaxFailures(k) failures |
| LoginSerial.FailuresPerWindow | backend/auth.py:727-763 | served one at a time, a half-open window of LOCKOUT_BASE_S without a success records at most LOCKOUT_THRESHOLD failures |
| Json.TextUnique | backend/audit.py:66-69 | JSON texts are self-delimiting in both separator styles |
| Json.DumpsInjective | backend/audit.py:66-69 | distinct values have distinct texts |
| CanonicalJson.CanonicalFaithful | backend/audit.py:66-69 | canonical texts agree exactly for values equal up to key order |
| CanonicalJson.CanonicalIgnoresKeyOrder | backend/audit.py:66-69 | the order in which a dict was built does not show in its canonical text |
| CanonicalJson.SampleTexts | backend/audit.py:66-69 | one document as it is stored and as it is hashed, character by character |
| AuditChain.SoundIsMet | backend/audit.py:66-73 | the assumptions on digest, timestamp text, dumps and loads are consistent |
| AuditChain.PayloadIs | backend/audit.py:112-119 | the hashed document has exactly the six keys, each with its own value |
| AuditChain.LinkUnique | backend/audit.py:72-73 | previous hash, canonical payload and timestamp frame one hash input without ambiguity |
| AuditChain.PreimageFaithful | backend/audit.py:66-73 | two rows have one hash input exactly when they agree on previous hash and every hashed field |
| AuditChain.VerifyChain | backend/audit.py:463-489 | the walk's verdict names the first row that breaks the chain, intact exactly for accepted chains |
| AuditChain.VerifyAllChains | backend/audit.py:509-533 | one verdict for each tenant, each that tenant's own |
| AuditChain.VerdictIntact | backend/audit.py:463-489 | the verdict is intact exactly when every row is good |
| AuditChain.LastHashCommits | backend/audit.py:463-489 | two accepted chains with one last digest have equal length and hashed fields in every row, or a collision between their own hash inputs |
| AuditChain.DigestsDistinct | backend/audit.py:463-489 | no digest occurs twice in an accepted chain, or it exhibits a collision |
| AuditChain.AlterationReported | backend/audit.py:466-489 | an altered row is reported at itself exactly when a hashed field changed and the inputs do not collide |
| AuditChain.RehashReportedAtSuccessor | backend/audit.py:466-489 | an altered row with a recomputed digest is reported at its successor |
| AuditChain.DeletionReported | backend/audit.py:466-489 | deleting a row that is not the last is reported at its successor |
| AuditChain.TruncationAccepted | backend/audit.py:466-489 | cutting rows off the end is not reported |
| AuditChain.SwapReported | backend/audit.py:466-489 | exchanging two rows is reported at the earlier place |
| AuditWriters.ChainExtends | backend/audit.py:91-155 | appending the row an append builds from the tail it read keeps a good chain |
| AuditWriters.InvStep | backend/audit.py:91-155 | lock, tail read, dedupe check, insert, rollback to any savepoint, commit and abort keep the invariant of all writers and tenants |
| AuditWriters.WindowIsSecondIff | backend/audit.py:91-155 | the dedupe window of a reading is its whole second exactly from the epoch on, and at whole seconds before it |
| AuditWriters.EveryRunVerifies | backend/audit.py:91-155 | in every interleaving of any callers of audit.log over any tenants, with colliding lock keys, every tenant's committed rows are intact, and none shares action, entity and second with an earlier one unless its own reading lies inside a second before the epoch |
| AuditWriters.DuplicatedIff | backend/audit.py:133-141 | a request counts as stored exactly when its chain has its action, kind and entity in its whole second |
| AuditWriters.InsertRecords | backend/audit.py:143-155 | in every run an insert records the request its writer was asked to append: every column, and the digest of that request after the tail |
| AuditWriters.EveryRowAsked | backend/audit.py:91-157 | in every run every row, committed or not, records a request that some writer was asked to append |
| AuditWriters.CommitStores | backend/audit.py:91-157 | a commit stores every row of its transaction |
| AuditWriters.RowsStay | backend/audit.py:91-157 | committed rows are never changed or lost |
| AuditLog.FirstMatch | backend/audit.py:91-155 | the dedupe query finds the first row of the same event in the second, if there is one |
| AuditLog.AuditTable.LastHashForTenant | backend/audit.py:76-88 | the digest of the tenant's last row, empty without rows |
| AuditLog.AuditTable.Log | backend/audit.py:91-155 | nothing is stored exactly when the chain already has the event in its second; otherwise one row that records every field of the request joins that tenant's chain, and no other row changes |
| AuditLog.LogKeepsTable | backend/audit.py:91-155 | an insert extends the chain of its tenant and leaves every other alone |
| AuditLog.LogIsSerialRun | backend/audit.py:320-341 | the uninterrupted append is a run of the interleaving model with one writer |
| AuditLog.RepeatStoredOnceIff | backend/audit.py:91-155 | an event logged twice at one reading is stored once exactly when that reading's window is its second |
| AuditLog.StoredTwiceBeforeEpoch | backend/audit.py:91-155 | for any reading inside a second before the epoch, a run that stores one event twice |
| SessionRotation.InvStep | backend/auth.py:1421-1487 | every step of rotations, logins, deletions and expiry changes keeps the rotation links and locks |
| SessionRotation.OneProductPerToken | backend/auth.py:1421-1487 | at any time at most one session made by rotating a given token exists |
| SessionRotation.RotationsAgree | backend/auth.py:1421-1487 | a rotation either gives the earlier answer or leaves no session under it |
| SessionRotation.LiveAnswerIsKept | backend/auth.py:1421-1487 | while the earlier answer lives, a rotation that reads it returns it |
| SessionRotation.CommitLeaves | backend/auth.py:1421-1461 | in every run a committed rotation leaves the new session with its own expiry, the rotated token with the grace expiry and the link, every other row but the evicted one as it was |
| SessionRotation.CommitKeeps | backend/auth.py:1440-1445 | a rotation that returns the earlier answer changes no row |
| SessionStore.SessionTable.GetSession | backend/auth.py:1256-1306 | found exactly for a token whose expiry has not passed; an expired row is evicted, nothing else changes |
| SessionStore.SessionTable.RotateSession | backend/auth.py:1421-1487 | answer and table for a missing token, a live successor and a new session; the new session ends at its expiry, the rotated token after the grace period |
| SessionStore.RotatedOk | backend/auth.py:1421-1487 | the committed rotation keeps one product for each token |
| SessionStore.RotatedLeaves | backend/auth.py:1421-1461 | expiries, link and eviction after a rotation that creates a session, every other row as it was |
| SessionStore.RotateIsSerialRun | backend/auth.py:1421-1461 | the uninterrupted rotation is a run of the interleaving model with one caller |
| PasswordHistory.Accounts.CheckPasswordHistory | backend/auth.py:542-558 | true exactly for the current password and the stored history |
| PasswordHistory.Accounts.RecordPasswordHistory | backend/auth.py:581-597 | the user's history is its newest LIMIT rows, other users' rows stay |
| PasswordHistory.Accounts.ChangePassword | backend/auth.py:600-622 | both tables after a change; a first password records nothing |
| PasswordHistory.Accounts.RehashOnLogin | backend/auth.py:868-880 | the hash is overwritten, whatever it is by then, exactly when the hash read at login was outdated and verified |
| PasswordHistory.TrimHashes | backend/auth.py:592-597 | the delete keeps exactly the user's newest rows, in order |
| PasswordHistory.OverlapIff | backend/auth.py:625-646 | two changes that read the same hash store the serial rows exactly when the first new password is the old one and, if both insert and trim before either commits, the history has room for two more rows; the newest LIMIT rows are the serial ones in both orders under the first condition alone |
| PasswordRuns.InvStep | backend/auth.py:542-622 | every statement of any interleaved logins, checks and changes keeps row order, locks and what each caller knows |
| PasswordRuns.StepIff | backend/auth.py:542-622 | from a state with exact history and distinct passwords, a step leads to another exactly when it comes in time |
| PasswordRuns.RunIff | backend/auth.py:542-646 | in every run of any callers the history is the most recent LIMIT earlier passwords and any LIMIT + 2 in a row are distinct, all along, exactly when every write comes in time |
| PasswordRuns.CommittedRowsIff | backend/auth.py:581-622 | the rows left by a commit are the most recent earlier passwords exactly when it read the password that is still current and its row and delete fit |
| PasswordRuns.MissedIff | backend/auth.py:542-558 | of the latest passwords a check can have missed exactly those that were current since it began |
| PasswordRuns.ReadsStandIff | backend/auth.py:600-622 | within LIMIT + 1 written passwords, the reads of a change stand exactly when none was written since |
| PasswordRuns.RehashStandsIff | backend/auth.py:868-880 | within LIMIT + 1 written passwords, a rehash comes in time exactly when none was written since its read |
| PasswordRuns.QuietRunGood | backend/auth.py:542-646 | when no password is written between the first read behind a write and the write, history and distinctness hold |
| PasswordRuns.ReusedIff | backend/auth.py:542-558 | a check that nothing comes between turns a password away exactly when it is among the last LIMIT + 1 |
| PasswordRaces.ChangeIsSerialRun | backend/auth.py:542-622 | an admitted change that nothing comes between is a run with the effect of ChangePassword |
| PasswordRaces.LoginIsSerialRun | backend/auth.py:868-880 | a login that nothing comes between is a run with the effect of RehashOnLogin |
| PasswordRaces.LateRehash | backend/auth.py:868-880 | a run in which a login takes back a change that committed after its read |
| PasswordRaces.SubmittedTwice | backend/routers/auth.py:640-646 | a run in which one new password is written twice in a row |
| PasswordRaces.SplitCheck | backend/auth.py:542-558 | a run in which a change between the two reads of a check lets the old password back in |
| PasswordRaces.TrimsBeside | backend/auth.py:581-597 | from any state without room for two more rows, two admitted changes side by side leave LIMIT + 1 rows |
| PasswordRaces.TrimsBesideRun | backend/auth.py:581-597 | a run from the start that leaves LIMIT + 1 rows |
| AdaptiveBudget.BudgetController.ResetTo | backend/adaptive_budget.py:280-301 | the whole state after a reset, whose trace holds one entry |
| AdaptiveBudget.BudgetController.TrimTrace | backend/adaptive_budget.py:247-250 | entries older than the window leave from the front |
| AdaptiveBudget.BudgetController.TickOnce | backend/adaptive_budget.py:311-385 | the whole state and the reason after one tick, by branch |
| AdaptiveBudget.BudgetController.ReadTrace | backend/adaptive_budget.py:388-397 | reading trims and changes nothing else |
| AdaptiveBudget.TickMoves | backend/adaptive_budget.py:311-385 | exact conditions under which a tick raises or lowers the budget, by how much, and with which reason |
| AdaptiveBudget.RestrainedNeverRises | backend/adaptive_budget.py:311-385 | over any run in which every tick has deferred work or a busy host the budget does not rise |
| AdaptiveBudget.MovesAreEarned | backend/adaptive_budget.py:311-385 | in every run the budget falls only when all ticks of the persistence time were hot, and rises only without deferrals and an interval after the last entry |
| AdaptiveBudget.HistoryStep | backend/adaptive_budget.py:311-385 | every event keeps budget in range, entries spaced and the last entry at the live budget |
| AdaptiveBudget.TraceFollows | backend/adaptive_budget.py:247-268 | in every run entries are at least the persistence time apart, and the trace is a suffix of the full history that ends in the current budget |
| AdaptiveBudget.TraceIsComplete | backend/adaptive_budget.py:247-268 | in every run, entries missing from the trace are older than the window |
| AdaptiveBudget.TraceBounded | backend/adaptive_budget.py:247-268 | in every run the trimmed trace has at most floor(window / persistence) + 1 entries |
| BudgetConvergence.HalvedIsQuotient | backend/adaptive_budget.py:338-345 | n halvings are one division by 2^n |
| BudgetConvergence.HotReachesFloor | backend/adaptive_budget.py:338-362 | an all-hot run with ticks at most s apart is at the floor after s + n * (persistence + s) |
| BudgetConvergence.CoolReachesCapacity | backend/adaptive_budget.py:363-385 | an all-cool run without deferrals is at capacity after (capacity - floor) * (interval + s) |
| BudgetPersistence.InvStep | backend/adaptive_budget.py:524-566 | ticks, snapshots, writes, failures and restarts keep the budget on its way to the row unless a write was lost |
| BudgetPersistence.CleanMeansStored | backend/adaptive_budget.py:472-521 | with the flag clear, no write in flight and the latest not lost, the row is the live budget and a restart that loads it resumes it |
| BudgetPersistence.CleanStoredIff | backend/adaptive_budget.py:524-566 | failures included, the row is then the live budget exactly when the latest write landed, or failed over a row that already held what it carried |
| BudgetPersistence.FailedWriteIsForgotten | backend/adaptive_budget.py:524-566 | a failed write leaves a clear flag over a stale row |
| DriftGate.WalksIsReachability | backend/alembic_drift_gate.py:113-130 | the ancestor test is reachability in the revision graph |
| DriftGate.HeadAbove | backend/alembic_drift_gate.py:113-130 | every known revision lies below some head |
| DriftGate.ClassificationExact | backend/alembic_drift_gate.py:133-157 | match, image_ahead, db_ahead and divergent each hold exactly for the head sets stated |
| DriftGate.EmptyImageIsDivergent | backend/alembic_drift_gate.py:133-157 | an image without migrations counts as divergent |
| DriftGate.GateOpensIff | backend/alembic_drift_gate.py:160-304 | the gate exits 0, 1 and 2 exactly under the conditions stated |
| StartupUpgrade.AcquireAdvisoryLock | backend/alembic_startup_hook.py:130-147 | polling ends within timeout + 1 polls, and gives up only at the deadline |
| StartupUpgrade.CheckMeans | backend/alembic_startup_hook.py:185-226 | what the payload tests say about the heads that were read |
| StartupUpgrade.InvStep | backend/alembic_startup_hook.py:68-108 | every step of N workers other than the loss of a lock session keeps the lock discipline and the meaning of their checks |
| StartupUpgrade.UpgradesExclude | backend/alembic_startup_hook.py:68-108 | an upgrade overlaps another worker's upgrade or checks only when one of the two has lost its lock session |
| StartupUpgrade.UpgradeStartsOnlyForward | backend/alembic_startup_hook.py:68-108 | an upgrade starts only from known heads that are not aligned, never from a backward check, never after one succeeded, while no lock session has been lost |
| StartupUpgrade.ReturnedMeansAligned | backend/alembic_startup_hook.py:68-108 | while no lock session has been lost, a returned worker means the database is at the script heads and the manifest, then and later |
| StartupUpgrade.OutcomeIff | backend/alembic_startup_hook.py:85-108 | exact outcome of a check by what it read: return, backward drift or failure, and when it asks for an upgrade |
| StartupUpgrade.EndsIff | backend/alembic_startup_hook.py:68-108 | in every run a finished worker returned exactly when its latest check read aligned heads under the manifest's name and it kept its session; the other outcomes likewise |
| StartupUpgrade.UpgradedReturns | backend/alembic_startup_hook.py:87-99 | while no session is lost, a worker whose upgrade succeeded and whose second check can read returns exactly when the manifest names the image's heads |
| StartupUpgrade.LocksAreReleased | backend/alembic_startup_hook.py:150-154 | no finished or killed worker holds the lock, lost sessions included |
| StartupUpgrade.EmptyImageUpgradesAgain | backend/alembic_startup_hook.py:185-200 | without migrations an upgrade can start after one succeeded |
| StartupUpgrade.LostSessionOverlap | backend/alembic_startup_hook.py:82-91 | for every image, after a lost session two workers upgrade an empty database at once |
| Strings.SplitJoin | backend/block_redaction.py:270-282 | splitting a dotted path gives back parts without dots |
| Strings.StripBlank | backend/block_redaction.py:246-256 | stripping takes blanks off both ends and nothing else |
| JsonTree.ApplyUnderField | backend/block_redaction.py:270-282 | path writes under one key act on that key's value alone |
| JsonTree.ApplyUnderItem | backend/block_redaction.py:270-282 | path writes under one index act on that item alone |
| JsonTree.SetMissesDotted | backend/block_redaction.py:270-282 | a write along parts without dots cannot change what stands at a dotted key |
| RedactionWalk.WalkVisits | backend/block_redaction.py:156-175 | the walk's dotted paths are the joined keys and indexes of the visited places, in order |
| RedactionWalk.NodesApart | backend/block_redaction.py:156-175 | visited places are pairwise non-nested |
| RedactionWalk.WritesAreMap | backend/block_redaction.py:156-175 | writing the redaction of every visited place in turn is one recursive map of the tree |
| RedactionWalk.NodeMapped | backend/block_redaction.py:156-175 | a visited place holds what the walk yielded, and its redaction afterwards |
| RedactionWalk.OtherPlacesKept | backend/block_redaction.py:156-175 | a place that no rewritten one contains or lies in keeps its value |
| RedactionWalk.EnvelopeFate | backend/block_redaction.py:223-232 | each envelope at any depth goes with one visited place: nothing confidential left there if redacted, unchanged if not |
| RedactionWalk.NoEnvelopeAppears | backend/block_redaction.py:156-175 | an envelope in the result was in the same place before |
| RedactionWalk.ConfidentialIff | backend/block_redaction.py:223-232 | an envelope has all six keys, a boundary one of two |
| RedactionReasons.ReasonsOfMark | backend/block_redaction.py:246-256 | a mark exempts exactly when it lists none; else its known reasons once each, or secret |
| RedactionReasons.StrippedIff | backend/block_redaction.py:246-252 | a mark's reasons are its texts without blanks around them, empty ones left out |
| RedactionReasons.MarkedLeavesReasons | backend/block_redaction.py:186-190 | a value under a mark that does not exempt it is replaced by the mark's reasons, whatever the value was |
| RedactionReasons.PlaceholderTells | backend/block_redaction.py:265-267 | a placeholder tells its reasons |
| RedactionReasons.TextReasonsIff | backend/block_redaction.py:200-220 | each detector's reason is given exactly when it hit |
| RedactionReasons.TextEstablished | backend/block_redaction.py:200-220 | what one stage brings about and the later ones keep holds of the text handed on; a text without a hit is handed on unchanged |
| RedactionReasons.NearestIsLongest | backend/block_redaction.py:235-243 | the mark that counts is that of the longest marked prefix |
| RedactionReasons.ExplicitReasonForPath | backend/block_redaction.py:235-243 | the downward search returns the nearest mark |
| RedactionReasons.RedactorSeals | backend/block_redaction.py:178-220 | replacement values hold no envelope and no dotted key |
| RedactionReasons.EnvelopeRewrittenIff | backend/block_redaction.py:178-220 | a visited envelope is replaced exactly when no operator exempted it |
| RedactionReasons.ReasonsKnown | backend/block_redaction.py:178-220 | reasons are known ones, each at most once |
| BlockRedaction.BlockVisits | backend/block_redaction.py:138-153 | the visits of a block are those of its selected regions, by joined paths |
| BlockRedaction.RedactBlockForShare | backend/block_redaction.py:95-135 | result of the loop: block after all path writes, mask, regions and the changed flag, or none when a write raises |
| BlockRedaction.BlockWritesAreMap | backend/block_redaction.py:95-135 | all writes of a block are one recursive map of its selected regions, everything else as it was |
| BlockRedaction.LoopIsMap | backend/block_redaction.py:95-135 | the loop raises nothing and returns the recursive map when no rewritten place lies under a dotted key |
| BlockRedaction.LoopIsMapIff | backend/block_redaction.py:95-135 | when redactions change their values, the loop is the map exactly in that case |
| BlockRedaction.DottedKeyRaises | backend/block_redaction.py:270-282 | any envelope under the metadata key "a.b" makes the redaction raise |
| BlockRedaction.DottedKeyMissed | backend/block_redaction.py:270-282 | with a sibling "a" that holds "b", the placeholder lands there and the envelope stays |
| BlockRedaction.BlockNodesApart | backend/block_redaction.py:138-153 | visited places of a block are pairwise non-nested |
| BlockRedaction.BlockNodeMapped | backend/block_redaction.py:95-135 | each visited place of a block holds its value before and its redaction after |
| BlockRedaction.MaskIsExact | backend/block_redaction.py:95-135 | mask keys are exactly the rewritten places, each with its own reasons |
| BlockRedaction.EnvelopesReplaced | backend/block_redaction.py:178-220 | every envelope in a selected region is gone unless the place it goes with was exempted, and then it is unchanged |
| BlockRedaction.TextsRedacted | backend/block_redaction.py:95-135 | every text at any depth of a selected region of the result: under an envelope, exempted and unchanged, replaced by its mark's reasons, or with everything the detectors are for |
| BlockRedaction.TextReasonsInMask | backend/block_redaction.py:95-135 | the mask of an unmarked text names exactly the stages that hit it |
| BlockRedaction.ChangedIff | backend/block_redaction.py:109-135 | the result is reported changed exactly when its mask is not empty |
| BlockRedaction.PayloadKeysIff | backend/block_redaction.py:48-52 | a payload key is walked exactly when the region it belongs to is selected |
| BlockRedaction.RegionsAre | backend/block_redaction.py:86-92 | the known regions asked for, once each in canonical order, or all of them |
| TodoMarkers.CountBefore | auto-runner-codex.py:357-405 | no marker runs across the place where another begins |
| TodoMarkers.ReplacedCounts | auto-runner-codex.py:357-405 | one replacement turns one marker of the old kind into one of the new and changes no other count |
| TodoMarkers.CountsByText | auto-runner-codex.py:357-420 | the four counts are those of the four marker texts |
| TodoMarkers.ReplacedErases | auto-runner-codex.py:357-405 | a replacement changes nothing but one marker |
| TodoMarkers.RemarkedOccurs | auto-runner-codex.py:408-420 | the reserved line is in the file afterwards, so the flip finds one |
| TodoMarkers.PickedLineMarkedIff | auto-runner-codex.py:357-405 | the line at a place is the one marked exactly when its text stands nowhere before it |
| TodoMarkers.OtherLineMarked | auto-runner-codex.py:357-405 | a file in which another line is marked |
| TodoRunner.LinesMeanFile | auto-runner-codex.py:268-284 | the lines make up the file and end where it has line feeds |
| TodoRunner.FirstPending | auto-runner-codex.py:268-330 | the least index of a pending line in a matching section |
| TodoRunner.FindFirstPending | auto-runner-codex.py:319-332 | the first pending bullet of a section that holds the target text |
| TodoRunner.GetNextPendingItem | auto-runner-codex.py:268-316 | the streaming scan returns the first pending line in document order with its section's title and text, none only if there is none |
| TodoRunner.PickedMeans | auto-runner-codex.py:268-332 | the pick is the first bullet with the target text in a section whose heading matches, with that heading and the whole section |
| TodoRunner.PickedCanBeReserved | auto-runner-codex.py:668-700 | a picked line is in the file and starts with the pending marker |
| TodoRunner.ReservesPickedIff | auto-runner-codex.py:408-410 | the reservation marks the picked line exactly when its text stands nowhere before it |
| TodoRunner.TodoFile.ReplaceMarker | auto-runner-codex.py:357-405 | file and returned line after a replacement, file unchanged when it is refused |
| TodoRunner.TodoFile.ReserveItem | auto-runner-codex.py:408-410 | one marker becomes a reservation that can be flipped |
| TodoRunner.TodoFile.FlipReservation | auto-runner-codex.py:413-420 | one reservation becomes done or failed |
| TodoRunner.TodoFile.Pass | auto-runner-codex.py:668-728 | one pass turns one pending marker into one done or failed marker and keeps every other character, or finds nothing and changes nothing |
| TodoRunner.TodoFile.RunTierB | auto-runner-codex.py:668-742 | the loop ends within the initial pending count; the four marker texts are as many as it counted, every other character is kept, and nothing is left pending unless stopped |
| TodoRunner.RunWithRetries | auto-runner-codex.py:704-711 | success exactly when one of the allowed attempts succeeds |
| FontStack.CutIsCut | backend/brand_canonical.py:418-457 | pieces joined by commas give the text back, hold no separating comma, and all but the last are closed |
| FontStack.CutUnique | backend/brand_canonical.py:418-457 | there is only one such cut |
| FontStack.BoundariesOutside | backend/brand_canonical.py:418-457 | no piece boundary lies inside quotes or parentheses of the text |
| FontStack.LexerMeans | backend/brand_canonical.py:418-457 | the flags are the quote that is open, the depth is the largest surplus of unquoted opening parentheses |
| FontStack.BoundaryIff | backend/brand_canonical.py:418-457 | a comma separates exactly when no quote is open and no stretch in front of it opens more parentheses than it closes |
| FontStack.SplitFontStack | backend/brand_canonical.py:418-457 | the loop returns the non-empty stripped pieces of that cut |
| FontStack.SplitPieces | backend/brand_canonical.py:418-457 | pieces are stripped, not empty, whole, and closed except perhaps the last |
| FontStack.SplitJoinSplit | backend/brand_canonical.py:418-457 | splitting, joining with ", " and splitting again gives the same pieces for every input |
| PgPlaceholders.TranslateParams | backend/alembic_pg_compat.py:265-293 | the loop replaces "?" exactly where an even number of quotes comes before it |
| PgPlaceholders.LiteralsKept | backend/alembic_pg_compat.py:265-293 | quoted parts are kept character for character, the others have every "?" replaced |
| PgPlaceholders.Idempotent | backend/alembic_pg_compat.py:265-293 | translating twice is translating once |
| PgPlaceholders.ReversedIff | backend/alembic_pg_compat.py:265-293 | the reverse rewrite gives the input back exactly when it has no "%s" outside quotes |
| HintBoard.Hints.CheckRate | backend/agent_hints.py:98-111 | answer and stored window after the limiter, which trims even when it refuses |
| HintBoard.Hints.Inject | backend/agent_hints.py:129-188 | outcome and all three dictionaries after an injection |
| HintBoard.Hints.Consume | backend/agent_hints.py:221-228 | the pending hint is returned, slot and event cleared |
| HintBoard.Hints.GetResumeEvent | backend/agent_hints.py:114-126 | the event is made clear on first use and kept afterwards |
| HintBoard.EventIffPending | backend/agent_hints.py:129-228 | on one event loop the resume event is set exactly while a hint is pending, in every run |
| HintBoard.SlotIsNewest | backend/agent_hints.py:129-228 | the pending hint is the newest one since the last consume |
| HintBoard.AcceptedIff | backend/agent_hints.py:98-111 | with one rate and window and clock readings in order, a hint is refused exactly when rate were accepted in the window before it |
| HintBoard.RateBound | backend/agent_hints.py:98-111 | with readings at most d behind, every closed window of length window - d holds at most rate accepted hints of an agent; d = 0 is the whole window |
| HintBoard.RateBoundIff | backend/agent_hints.py:98-111 | from rate 2 on, the windows safe for all such runs are exactly those whose length plus d does not exceed the limiter's window |
| HintBoard.RateOneBound | backend/agent_hints.py:98-111 | with rate 1 every closed window holds at most one accepted hint, in any order of readings |
| HintBoard.LateReadingBreaksTheBound | backend/agent_hints.py:98-111 | for every rate from 2 on and every longer window, a run that exceeds the rate in it |
| HintThreads.InvStep | backend/agent_hints.py:114-228 | every part of an interleaved call keeps slot and event as their last writers left them |
| HintThreads.EventTellsIff | backend/agent_hints.py:114-228 | in every run on any threads the event is set exactly while a hint is pending, exactly when calls of one kind wrote both last |
| HintThreads.DisagreeIffEnclosed | backend/agent_hints.py:114-228 | at rest, slot and event disagree exactly when the last call to write the slot lies inside a call of the other kind that wrote the event last |
| HintThreads.SerialEventTells | backend/agent_hints.py:114-228 | calls on one agent that do not overlap leave event and slot in agreement |
| HintThreads.ThreadedWakeupLost | backend/agent_hints.py:221-228 | from any state with an event, an inject inside a consume leaves a hint pending with the event clear |
| HintThreads.ThreadedWakeupEmpty | backend/agent_hints.py:129-188 | from any such state, a consume inside an inject leaves the event set with nothing pending |
| HintThreads.InjectIsSerialRun | backend/agent_hints.py:129-188 | the parts of an inject with nothing in between are the whole inject |
| HintThreads.ConsumeIsSerialRun | backend/agent_hints.py:221-228 | the parts of a consume with nothing in between are the whole consume |

## Left out

- BlockRedaction.TextsRedacted: the secrets stage is taken to report a hit whenever it rewrites a text, as `backend/security/secret_filter.py:149-189` does.
- BlockRedaction.LoopIsMapIff: the "only if" half is for redactions that change their value; an operator mark on a text that already is its own placeholder can hide a missed write.
- LoginWindow.WindowBound: the clock reading for a lock and the statement that writes it are one step, and readings do not run backwards.
- RedactionWalk.EnvelopeFate: places in lists are named by decimal indexes as the walk writes them.
- SessionRotation.RotationsAgree: rotation inside a caller's own outer transaction, where the lock is held longer, is not a step of the model.
- In-place updates inside the redacted copy (`_set_path`): JSON trees are values, so a write gives a new tree. The copy is deep and shares nothing with the block, so aliasing does not arise.
- Tuples and keys that are not strings in a block, and mask values other than a text or a list of texts.
- Index texts other than decimal digits in `_set_path` (Python's int accepts more); the walk writes no others.
- Numbers in JSON are kept as their literal text; round-trip of floats through dumps and loads is an assumption.
- I/O errors on the TODO file and other writers of it. With a write that always fails the source's loop would not end.
- Line-end translation of text files, and the regex of the runner's section filter.
- Tier A of the runner, where the agent owns the marker.
- `auto-runner-jira.py`, `auto-runner-multi.py`, `auto-runner-sdk.py`, `auto-runner.py`: orchestration of outside calls, or the same scanner without reservations.
- The guild id of an audit request and its copy inside the payload (`backend/audit.py:110-111`): a request comes with both.
- `_ensure_pool` and the stderr fallback of the audit log, and `query`.
- Argon2, PBKDF2, SHA-256, KMS, the detectors' own patterns, SQL text, notifications and server-sent events.
- Several users in one run of password checks and changes: every statement names its user, and the effect on other users' rows is in the contract of `RecordPasswordHistory`.
- Password changes that skip the history check (`backend/routers/bootstrap.py:135`) and the erasure of a password (`backend/routers/privacy.py:295`).
- Rows that `backend/agents/provider_quota_tracker.py:396-455` inserts into the audit log without a dedupe query.
- A limiter whose rate or window changes between calls.
- Password strength rules, role checks, CSRF, device alerts and FastAPI wiring.
- Mode multipliers, host snapshots and the text of log lines in the budget controller.
- Alembic's own upgrade: the database heads become the script heads, or an exception leaves any heads at all.
- `depends_on` edges of migrations: the repository has none.
- `translate_sql`, colour conversion and hint sanitising: regex or float detail.
- Scaffolders, `backend/app_store_connect.py`, the user interface and its configuration.
