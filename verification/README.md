# Asgard supervisor: a verified model

Dafny proofs about the Python supervisor that runs Android apps under Asgard. They cover the parts that
keep state over long runs and share it with other processes or with crashes:

| module | models |
|---|---|
| `Realm`, `RealmRuns`, `ProcessSupervisor` | isolated UIDs handed out under POSIX record locks by any number of supervisor processes; `spawn`, `stop`, `reap`, `close` |
| `TaskControl`, `Links` | the task mailbox, HOME requests and link opening of one supervisor |
| `SharedAccounts`, `ActivityCompletion` | the shared copy of the Google account files and the answer to a remote Activity request |
| `ManagedRuntime` | `prepare_root`: replacing an app's runtime by renames, with a host crash anywhere |
| `CompilationCache` | `dexopt` and `retain_dexopt` as a cache of the compiler |
| `SettingsKey` | the race of first launches to publish one settings key |
| `ActivityReport`, `ReportMeaning`, `ReportPass` | matching completions to calls in one pass over a trace; what the report says, line by line |
| `Options` | a value that may be missing, shared by the other modules |
| `Gamepad`, `GamepadRuns`, `PadReading` | the gamepad reader: edges, repeats, stick hysteresis, focus loss |

Where several processes, threads or crashes interleave, the state is a value, every indivisible action is
a `Step` with its guard (`Enabled`) and effect (`Apply`), and the theorems are about every `Run`. The
operations themselves are methods of classes that change the same state in place: each assignment is one
of those steps, so what holds over runs holds for them at every point. The realm keeps the history of the states
that the operations saw, so that a contract can say when something was found. Between two steps of a supervisor
or of a key publisher `Yield` stands for whatever the others do; its contract is the one that
`RealmRuns.InterleavingUndisturbed` and `SettingsKey.OthersUndisturbed` prove of every interleaving.
Record locks follow POSIX.1-2017, `fcntl()` and `lockf()`: they belong to the process, and closing the
file drops them all.

Times are integer milliseconds and axes integer thousandths. A content hash is an injective function.
The compiler is an arbitrary function of the compilation key whose runs may also fail. The choices of the
environment (random bytes, clock values, which call raises, which child outlives SIGKILL) are parameters.

`dafny verify dfyconfig.toml` checks everything.

## Where the code does less than its comments say

Each has a concrete run and the exact condition, for all runs:

- `open_url` says the same link is not opened twice within 30 s. It compares with the last open only, so
  A, B, A opens A twice (`Links.SameLinkTwice`; exactly when: `Links.ReopensIff`).
- `home` sets `home_active` outside the mutex after the launcher answered. A `task(True)` between the two
  is overwritten, and the next HOME does not reach the launcher (`TaskControl.HomeCanBeLost`; exactly when:
  `TaskControl.HomeActivatesIff`).
- A host crash between publishing the fresh root and writing `runtime.json` loses no data, but from then
  on every start raises unless it asks for exactly the identity recorded before
  (`ManagedRuntime.CrashCanInterrupt`, `ManagedRuntime.InterruptedUntilReuse`; in one call, exactly when:
  `ManagedRuntime.ManagedDirectory.Prepare`).
- After the same crash a start that asks for the recorded identity runs on the tree that was built for the
  other one if every file recorded for the old tree is unmodified in the new one, and raises otherwise
  (`ManagedRuntime.SessionOnOtherTree`, `ManagedRuntime.CrashCanInterrupt`; exactly when a session's tree was
  built for the identity it asked for, in every run: `ManagedRuntime.SessionTree`).
- `remove` says app roots drop the account at their next launch. An idle root does, unless its last exchange
  was of exactly the copy that the removal leaves and an import that raised since then took the account
  store from another copy: then the next import is skipped and the account stays
  (`SharedAccounts.RemovedButSeen`; exactly when, for runs in which no session ends with anything left to
  publish: `SharedAccounts.RemovedUnlessTorn`; for all runs: `SharedAccounts.RemovedUnlessSkipped`).
- A root that lost its own account store after taking over the shared copy is not given the shared accounts
  again (`SharedAccounts.LostStoreStaysLost`; exactly when an import leaves root and shared copy equal, in
  every run: `SharedAccounts.ImportAgreesIff`).
- A failed compilation leaves no outputs behind, unless the host crashes in the middle of a later
  compilation for another key: then the failed stamp is accepted beside half-written outputs
  (`CompilationCache.CrashLeavesOutputs`; exactly when outputs are left beside a failed stamp, in every run:
  `CompilationCache.LeftoversIff`). A successful stamp is right even after crashes.
- `finish_request` hands the staged answer back while the guest is alive: a result staged after its turn and
  before the removal is deleted unread (`ActivityCompletion.LateResult`; exactly when nothing is lost:
  `ActivityCompletion.NothingLostIff`).
- The report's books balance only while no (pid, id) is reused while pending; each reuse displaces
  exactly one call (`ActivityReport.ReusedCall`; exactly when: `ActivityReport.BalancedIffNoReuse`; by how much:
  `ActivityReport.Conservation`).

## Model

| member | source | states |
|---|---|---|
| RealmRuns.UidsExclusive | Scripts/Android/android_processes.py:186-264 | In every interleaving of any number of supervisors, two isolated processes that both run never share a UID. |
| RealmRuns.ReassignedAfterExit | Scripts/Android/android_processes.py:186-264 | When a UID goes to a new isolated process, every earlier isolated process with that UID, of whichever supervisor, has exited. |
| RealmRuns.RunningIsLeased | Scripts/Android/android_processes.py:148-150 | At every state of every run the byte of a running isolated process is locked by the supervisor that started it, wherever that supervisor is in its operations. |
| RealmRuns.EntriesExclusive | Scripts/Android/android_processes.py:255-264 | Isolated table entries anywhere in the realm are leased by their own supervisor and carry distinct UIDs, except an entry whose byte `reap` has just given back. |
| RealmRuns.AtMostSixteen | Scripts/Android/android_processes.py:204-206 | No table ever holds more than 16 children, in the middle of any operation of any supervisor. |
| RealmRuns.ClosedForGood | Scripts/Android/android_processes.py:332-344 | After `close` has emptied the table it stays empty, nothing is started, and every child ever spawned has exited. |
| RealmRuns.ReleasedHoldsNothing | Scripts/Android/android_processes.py:345-346 | After the lock file was closed, that supervisor never holds a byte again. |
| RealmRuns.StoppedStartsNothing | Scripts/Android/android_processes.py:204-206 | Once `stopped` is set and no `spawn` is under way, no byte is leased, no child is started and no entry is added, even when `close` gave up half way. |
| RealmRuns.InterleavingUndisturbed | Scripts/Android/android_processes.py:148-150 | Any number of steps of the others leave a supervisor's table, mutex and leases alone, and its processes the same except that they may exit: what each operation below relies on. |
| Realm.StepKeepsInv | Scripts/Android/android_processes.py:186-346 | Each step of each operation keeps: tables describe their processes, isolated UIDs are distinct and leased, every running process is in a table or about to be entered. |
| Realm.OthersUndisturbed | Scripts/Android/android_processes.py:186-264 | No step of one supervisor changes the table, the leases or the processes of another one. |
| Realm.OwnStepTracks | Scripts/Android/android_processes.py:255-264 | A step that takes an entry out of a table is only possible once the process has exited. |
| ProcessSupervisor.ProcessHost.AllocateUid | Scripts/Android/android_processes.py:186-196 | The lowest UID that could be had when it was tried: each probe is a moment of the history, in order, at every lower one the UID was carried by a child or locked by another supervisor, at the last one it was not; fails only after all 1000 were refused so; leases exactly that byte. |
| ProcessSupervisor.ProcessHost.TryUid | Scripts/Android/android_processes.py:188-195 | One turn of the loop: a UID is taken exactly when it is free there and then. |
| ProcessSupervisor.ProcessHost.Reserve | Scripts/Android/android_processes.py:204-212 | Every refusal exactly when its reason holds: limit (stopped, or 16 children), key in use, invalid service UID, and OutOfUids only after each of the 1000 UIDs was refused at a moment of this very call; a refusal leases nothing, otherwise the UID is the first one that could be had. |
| ProcessSupervisor.ProcessHost.ReserveIsolated | Scripts/Android/android_processes.py:209-210 | An isolated child gets the first UID that could be had, or none after 1000 refused probes. |
| ProcessSupervisor.ProcessHost.ReserveService | Scripts/Android/android_processes.py:211-212 | A service keeps the UID of its request exactly when that is an integer from 10000 to 19999. |
| ProcessSupervisor.ProcessHost.ChooseUid | Scripts/Android/android_processes.py:209-212 | Which of the two, and its one refusal exactly when it is due. |
| ProcessSupervisor.ProcessHost.Choose | Scripts/Android/android_processes.py:204-212 | The checks under the mutex, decided for the state they start in. |
| ProcessSupervisor.NeverOutOfUids | Scripts/Android/android_processes.py:186-210 | A request is never answered OutOfUids while some UID could be had at every moment of the call; an isolated child that passes the other checks then gets that UID or a lower one. |
| ProcessSupervisor.KeyCharacters | Scripts/Android/android_processes.py:199-201 | A valid key is 32 lower-case hexadecimal digits. |
| ProcessSupervisor.ProcessHost.Spawn | Scripts/Android/android_processes.py:198-243 | Every error exactly when its reason holds, in the order of the checks, and success exactly when none does and the host system starts the child: with a fresh process, the requested key, and the first UID that could be had; failure leaves the table alone; the lease set grows only by the new byte, and keeps it without a child only when the log or trace directory failed; nothing is killed. |
| ProcessSupervisor.ProcessHost.Start | Scripts/Android/android_processes.py:213-243 | Given a chosen UID, either the child is registered with it, or the failure says what failed and only a failed Popen gives the byte back. |
| ProcessSupervisor.ProcessHost.Unwind | Scripts/Android/android_processes.py:237-241 | A failed Popen returns exactly the byte that was taken for this child. |
| ProcessSupervisor.ProcessHost.Enter | Scripts/Android/android_processes.py:235-243 | The new process is entered under the requested key with the chosen UID, and no lease changes. |
| ProcessSupervisor.ProcessHost.Terminate | Scripts/Android/android_processes.py:245-253 | Returns without a timeout exactly when the process has exited, and kills no other process. |
| ProcessSupervisor.ProcessHost.Stop | Scripts/Android/android_processes.py:304-309 | Answers whether the key is known; the wait succeeds exactly when the known child has exited; no other process is killed and the leases do not change. |
| ProcessSupervisor.ProcessHost.ReapOne | Scripts/Android/android_processes.py:257-264 | An entry goes exactly with its own byte and only when its process is dead; otherwise nothing changes. |
| ProcessSupervisor.ProcessHost.Reap | Scripts/Android/android_processes.py:255-264 | No child that was dead when it began remains, every removed child is dead and its byte free, every other entry is unchanged, and nothing is killed. |
| ProcessSupervisor.ProcessHost.TerminateAll | Scripts/Android/android_processes.py:340-343 | Every child is killed and waited for, or a child that outlives the wait ends the loop with the table intact; only children are killed. |
| ProcessSupervisor.ProcessHost.Close | Scripts/Android/android_processes.py:332-346 | Either everything ever spawned has exited, the table is empty and no byte is held, or a child outlived the wait and table and leases are unchanged; `stopped` is set in both cases, and only children are killed. |
| TaskControl.PollDelivers | Scripts/Android/android_processes.py:295-298 | In every interleaving a poll delivers exactly the latest visibility written since the previous poll, or nothing, and never the same write twice. |
| TaskControl.ActivationsSeparated | Scripts/Android/android_processes.py:162-174 | Between any two successful launcher activations the app was shown at least once. |
| TaskControl.ActiveMeansSet | Scripts/Android/android_processes.py:162-174 | `home_active` is set exactly when some HOME request recorded its activation and the app was not shown after that. |
| TaskControl.HomeActivatesIff | Scripts/Android/android_processes.py:167-174 | A HOME request is sent to the launcher exactly when the app was shown after every recorded activation. |
| TaskControl.HomeCanBeLost | Scripts/Android/android_processes.py:169-172 | A concrete interleaving in which the app was shown after the activation but before it was recorded, and the next HOME is not sent to the launcher. |
| TaskControl.TaskControl.Task | Scripts/Android/android_processes.py:162-165 | Writes the mailbox and, exactly when shown, allows the next activation. |
| TaskControl.TaskControl.PollTask | Scripts/Android/android_processes.py:295-298 | Delivers the latest undelivered write of the whole history, or nothing. |
| TaskControl.TaskControl.Home | Scripts/Android/android_processes.py:167-174 | Unavailable outside a session; otherwise activates at most once, exactly when HOME was not active, and leaves `visible=False` in the mailbox; when the launcher raised, it posts and records nothing. |
| Links.ConsecutiveOpens | Scripts/Android/android_processes.py:84-95 | Two opens in a row are at least 1 s apart, and at least 30 s apart when they are of the same link, whatever was asked in between. |
| Links.OpensApart | Scripts/Android/android_processes.py:84-95 | The i-th and the j-th open are at least j - i seconds apart. |
| Links.WindowBound | Scripts/Android/android_processes.py:84-95 | A window of T seconds holds at most floor(T) + 1 opens. |
| Links.RefusalsKeepWindows | Scripts/Android/android_processes.py:85-92 | Requests that opened nothing do not change what the next request gets. |
| Links.SameLinkTwice | Scripts/Android/android_processes.py:78-81 | A concrete run A, B, A in which a link is opened twice within the 30 s window. |
| Links.ReopensIff | Scripts/Android/android_processes.py:85-92 | A link asked for within 30 s of an earlier open of it is opened again exactly when another link was the last one opened, at least 1 s ago, and a browser launcher is installed. |
| Links.LinkOpener.OpenUrl | Scripts/Android/android_processes.py:75-95 | Each answer exactly when it is due; the record moves only on an open. |
| Links.LinksThatOpen | Scripts/Android/android_processes.py:18 | Exactly the http and https links with 1 to 2000 characters, none of them white space, control or DEL, pass. |
| SharedAccounts.StampInjective | Scripts/Android/android_google.py:92-94 | Two stamps agree exactly when all identity files do, absent ones included. |
| SharedAccounts.MarkerIsLastExchange | Scripts/Android/android_google.py:159-248 | Over every run a root's marker is the stamp of the files, equal in root and shared copy, that its last exchange left; it has none exactly when it made none since it was installed or rebuilt. |
| SharedAccounts.ExchangeTwice | Scripts/Android/android_google.py:159-248 | Over every run, an import or a publish of the same root right after an exchange changes nothing, neither root nor shared copy. |
| SharedAccounts.InterruptedImport | Scripts/Android/android_google.py:165-174 | After an import that raised, the next import, of whatever the shared copy is by then, leaves what it would have left without the raise exactly when it copies or the raise had changed nothing. |
| SharedAccounts.InterruptedPublish | Scripts/Android/android_google.py:234-248 | A publish that raised after any number of copies is made good by publishing again. |
| SharedAccounts.ExchangeSettles | Scripts/Android/android_google.py:159-248 | An exchange leaves the root's marker equal to its own stamp and both sides equal. |
| SharedAccounts.SettledStays | Scripts/Android/android_google.py:234-242 | Over any run, a root whose marker equals its stamp keeps that until its own files or marker are touched. |
| SharedAccounts.UnchangedNeverPublishes | Scripts/Android/android_google.py:234-242 | A root that exchanged and was not changed since never alters the shared copy when it publishes, whatever others published meanwhile. |
| SharedAccounts.ImportAgreesIff | Scripts/Android/android_google.py:159-174 | Over every run, an import leaves the root equal to the shared copy exactly when not both: the shared copy is again what it was at the root's last exchange, and the root's files are not. |
| SharedAccounts.UnsettledIsTorn | Scripts/Android/android_google.py:159-248 | When no session ends with anything left to publish, an idle root agrees with its marker unless it has no account store or its store comes from an import that raised. |
| SharedAccounts.TornStore | Scripts/Android/android_google.py:169-172 | Until the next session or exchange, a root's account store is the one that the last import to raise after copying it had read. |
| SharedAccounts.IdleAgreesIff | Scripts/Android/android_google.py:159-174 | In such runs, with no import into the root raised since its last exchange, an import into the idle root leaves it equal to the shared copy exactly when it had not lost its account store since it exchanged that very copy. |
| SharedAccounts.LostStoreStaysLost | Scripts/Android/android_google.py:159-174 | A concrete run in which a root that lost its account store is not given the shared accounts again. |
| SharedAccounts.RemovedUnlessSkipped | Scripts/Android/android_google.py:251-260 | Over every run, while the shared copy is as a removal left it, a root sees the account after an import exactly when it saw it before and its last exchange was of this same copy. |
| SharedAccounts.RemovedUnlessTorn | Scripts/Android/android_google.py:251-260 | When no session ends with anything left to publish, an idle root sees the account after its next import exactly when its last exchange was of this same copy and an import that then raised took its store from a copy that had the account. |
| SharedAccounts.RemovedEverywhere | Scripts/Android/android_google.py:251-260 | So a root into which no import raised since its last exchange never has the account after its next import and, if it has a store, then equals the shared copy. |
| SharedAccounts.RemovedButSeen | Scripts/Android/android_google.py:251-260 | A concrete run in which every session publishes and one import raises: the removed account stays visible in that root. |
| SharedAccounts.OneAuthor | Scripts/Android/android_google.py:234-248 | While no publish raises, the shared copy is the whole file set that one publish wrote, but for accounts removed from its store since. |
| SharedAccounts.KeptDrops | Scripts/Android/android_google.py:255-256 | The kept accounts are all others; the length is unchanged exactly when the account was not there. |
| SharedAccounts.Directory.CopyFrom | Scripts/Android/android_google.py:169-172 | Copies or unlinks each identity file in order; stopped after n files, exactly the first n are as in the source and the others as before. |
| SharedAccounts.ImportShared | Scripts/Android/android_google.py:159-174 | The import in place: skipped exactly when there is no shared store or the marker matches; one that copies leaves both sides equal on every file and nothing to publish; a failure, of the marker too, leaves the marker alone and exactly the first files copied. |
| SharedAccounts.PublishShared | Scripts/Android/android_google.py:234-248 | The publish in place: skipped exactly when the marker matches or the root has no store; one that writes leaves both sides equal on every file and nothing to import; a failure, of the marker too, leaves the marker alone and exactly the first files copied. |
| SharedAccounts.RemoveAccount | Scripts/Android/android_google.py:251-260 | Afterwards the account is not in the shared copy; it raises exactly when there is nothing to remove, and then changes nothing. |
| SharedAccounts.RemovedIff | Scripts/Android/android_google.py:254-256 | A removal is refused exactly when the shared copy has no such account. |
| SharedAccounts.RemovedIs | Scripts/Android/android_google.py:255-259 | A removal leaves all other accounts in their order, at the next revision, and every other file as it was. |
| SharedAccounts.KeepOthers | Scripts/Android/android_google.py:255 | The loop keeps exactly the other accounts, in their order. |
| ActivityCompletion.PrefixOfComplete | Scripts/Android/android_google.py:272-296 | In any part of a complete attempt `done` comes last if at all, and then the account publish and a copy of every available result came before. |
| ActivityCompletion.CopiesAreResults | Scripts/Android/android_google.py:275-276 | Every copy is of an available result with its contents, every available result is copied, each once and in the order of the list. |
| ActivityCompletion.Completion.CopyResults | Scripts/Android/android_google.py:275-276 | While the guest goes on staging, what is staged at a result's turn, and nothing else, goes to the request directory; on success all of it is there. |
| ActivityCompletion.Completion.FinishRequest | Scripts/Android/android_google.py:272-280 | `done` is left alone when a copy fails, absent when its creation fails, and otherwise there, with every result available at its turn copied; nothing else in the request directory changes; only what was staged anew after its turn can be lost. |
| ActivityCompletion.Completion.Answer | Scripts/Android/android_google.py:294-295 | The rest of an attempt after the publish: complete exactly when all copies and the creation of `done` succeed. |
| ActivityCompletion.NothingLostIff | Scripts/Android/android_google.py:275-277 | The removal of the staged answer loses nothing exactly when whatever was staged anew after its turn is in the request directory already. |
| ActivityCompletion.LateResult | Scripts/Android/android_google.py:275-277 | A result staged only between its turn and the removal is deleted without having been handed over. |
| ActivityCompletion.QuietIsNeverLate | Scripts/Android/android_google.py:275-277 | When the guest stages nothing in the meantime, no result is late and the copies hand over exactly what was staged. |
| ActivityCompletion.Completion.ClearStaged | Scripts/Android/android_google.py:277 | The staged answer is gone; only what was staged anew after its turn is lost with it. |
| ActivityCompletion.Completion.Stage | Scripts/Android/android_google.py:272-277 | What the guest has given follows what it stages, replaces and takes back, and stays as it was once the answer is complete. |
| ActivityCompletion.LogGrows | Scripts/Android/android_google.py:290-295 | An attempt added to any number of unfinished ones: `done` is still last, after a publish, and there exactly when the attempt is complete. |
| ActivityCompletion.Completion.Call | Scripts/Android/android_google.py:283-296 | The outcome and `done` for every fault: `done` appears only after the publish and all copies, and for a directory that began without one it is there exactly when the answer is complete. Publish and finish succeed at most once; over any number of failed calls and retries everything the guest gave is staged or handed over, but for what it staged anew between its turn and the removal; later calls change nothing. |
| ManagedRuntime.NothingLost | Scripts/Android/android_managed.py:939-998 | At every moment of every run with crashes and failing renames, the root, or without one the backup, is complete and holds exactly the latest app data, at each of the places where an app's data may be. |
| ManagedRuntime.WriteSurvives | Scripts/Android/android_managed.py:939-998 | A file an app writes stays readable with that content through any number of rebuilds, failed renames and crashes until a session touches it again. |
| ManagedRuntime.DeletionSurvives | Scripts/Android/android_managed.py:939-998 | A file an app deletes does not come back unless the app writes it or a newer image brings it. |
| ManagedRuntime.RestoresWhole | Scripts/Android/android_managed.py:939-940 | Whatever is renamed back to the root is complete and holds the latest data; a partly removed backup never is. |
| ManagedRuntime.SessionsStartClean | Scripts/Android/android_managed.py:922-938 | No session runs while a backup remains; the identity it asked for is the recorded one, and it starts with every recorded file unmodified. |
| ManagedRuntime.LiveTreeIsLast | Scripts/Android/android_managed.py:939-992 | Over every run, whatever is renamed to and fro, the root, or without one the backup, is the tree that was published last. |
| ManagedRuntime.SessionTree | Scripts/Android/android_managed.py:922-938 | In every run a session runs on the tree published last, which was built for the identity the session asked for exactly when it was stamped or the stamp before it was for the same identity. |
| ManagedRuntime.SessionOnOtherTree | Scripts/Android/android_managed.py:922-938 | For any two images of which the new one has every recorded file of the old one unmodified: after a crash between publish and stamp, a start with the recorded identity gets a session on the tree built for the other one. |
| ManagedRuntime.InterruptedUntilReuse | Scripts/Android/android_managed.py:983-985 | Once root and backup both exist, no preparation other than one for the recorded identity changes the disk or starts a session. |
| ManagedRuntime.CrashCanInterrupt | Scripts/Android/android_managed.py:986-995 | For any two images: a crash between the publishing rename and the stamp leaves such a disk with the old identity recorded, and a start with that identity passes the check of the recorded files exactly when the new image has all of the old one's unmodified. |
| ManagedRuntime.ManagedDirectory.BuildTree | Scripts/Android/android_managed.py:961-971 | The fresh tree, path by path: the source's file at the places of app data, where it has one, and everywhere else the image's. |
| ManagedRuntime.ManagedDirectory.BuildFresh | Scripts/Android/android_managed.py:941-982 | The same with the root as the source, or without one the installer's tree. |
| ManagedRuntime.ManagedDirectory.Restore | Scripts/Android/android_managed.py:939-940 | A backup becomes the root exactly when there is no root. |
| ManagedRuntime.ManagedDirectory.StampRuntime | Scripts/Android/android_managed.py:993-995 | Records the identity and exactly the files of the verified places, as they are in the published tree. |
| ManagedRuntime.ManagedDirectory.RemoveBackup | Scripts/Android/android_managed.py:683-690 | The backup is gone; in the meantime only the backup is ever incomplete. |
| ManagedRuntime.ManagedDirectory.Exchange | Scripts/Android/android_managed.py:986-992 | Published with the old root as backup, or undone, as the renames that raise decide. |
| ManagedRuntime.ManagedDirectory.UndoExchange | Scripts/Android/android_managed.py:990-992 | A failed publish puts the old root back unless that rename raises too, when the backup still holds it. |
| ManagedRuntime.ManagedDirectory.Prepare | Scripts/Android/android_managed.py:916-999 | Ready exactly when: on the recorded identity, no recorded file was modified; otherwise, no replacement is interrupted and the renames of the exchange succeed. A reusable root is reused as it is; a new one holds, path by path, the app data of the old root, else of the backup, else of the installer, and otherwise the image; a start that raises leaves the app's tree as it was; no backup remains. |
| ManagedRuntime.ManagedDirectory.Replace | Scripts/Android/android_managed.py:939-998 | Restores first, refuses an interrupted replacement, and otherwise, unless one of the two renames raises, leaves the tree that combines image and app data, with its own inventory stamped. |
| ManagedRuntime.ManagedDirectory.Write | Scripts/Android/android_managed.py:959-960 | A guest write goes to the live root and is part of the data to be kept. |
| CompilationCache.AcceptedIsCompiled | Scripts/Android/android_managed.py:763-774 | In every run, crashes included, an accepted successful stamp means the artifacts in the root are those that compiling for the current framework, code, APK, environment, properties and profile gives. |
| CompilationCache.AcceptedWasBegun | Scripts/Android/android_managed.py:731-774 | In every run, what is accepted was compiled at an earlier step at which the framework, code path, APK, environment, properties and profile, an empty one counting as none, were each what they are now. |
| CompilationCache.KeyIsFor | Scripts/Android/android_managed.py:731-742 | A key is the right one exactly when each of its fields is. |
| CompilationCache.KeysBegun | Scripts/Android/android_managed.py:838-885 | Every key that is stamped, or about to be, was the right one when a compilation began. |
| CompilationCache.RetainedIff | Scripts/Android/android_managed.py:784-804 | Artifacts are carried over exactly when framework and properties stay and the stamp is usable with the new code, APK and environment; they are then those of the old tree. |
| CompilationCache.AcceptedFailure | Scripts/Android/android_managed.py:763-774 | An accepted failed stamp means that at an earlier step of the run a compilation of the current key failed. |
| CompilationCache.FailuresFailed | Scripts/Android/android_managed.py:875-885 | A key counts as failed exactly when a compilation of it failed at an earlier step of the run. |
| CompilationCache.LeftoversIff | Scripts/Android/android_managed.py:868-885 | In every run, between operations, outputs are left beside a failed stamp exactly when a crash cut a compilation short with outputs on disk and only profile changes and crashes came since. |
| CompilationCache.CacheAgrees | Scripts/Android/android_managed.py:784-885 | In every crash-free run of rebuilds, carry-overs and `dexopt` calls, what is accepted is what recompiling the current key gives: its artifacts, or no artifacts after an earlier failure of that key. |
| CompilationCache.CarryAgrees | Scripts/Android/android_managed.py:784-804 | Artifacts carried through a rebuild are those that compiling in the new tree would give, or the same key failed and there are none. |
| CompilationCache.NoCrashNoTear | Scripts/Android/android_managed.py:868-885 | Without a crash no compilation is left half done. |
| CompilationCache.CrashLeavesOutputs | Scripts/Android/android_managed.py:868-885 | A concrete run: after a crash in the middle of another key's compilation, an earlier failed stamp is accepted beside half-written outputs. |
| CompilationCache.DexoptCache.Dexopt | Scripts/Android/android_managed.py:807-885 | Compiles exactly when there is no stamp of the current framework, code, APK, environment, properties and profile, field by field, with its artifacts intact or a failure; then artifacts and stamp are those of these values, so a second call accepts (for a success: if there is an odex and a vdex). |
| CompilationCache.DexoptCache.Compile | Scripts/Android/android_managed.py:872-880 | A failed compilation leaves no outputs, a successful one those of its key. |
| CompilationCache.DexoptCache.Recompile | Scripts/Android/android_managed.py:868-885 | Old outputs never survive into the new stamp. |
| CompilationCache.DexoptCache.SaveDexoptStamp | Scripts/Android/android_managed.py:777-781 | The stamp records the key, the result and the artifacts that are there. |
| CompilationCache.DexoptCache.UnlinkOutputs | Scripts/Android/android_managed.py:871 | Every output is gone, nothing else in the tree changed. |
| CompilationCache.DexoptCache.RebuildRuntime | Scripts/Android/android_managed.py:784-804 | Artifacts are carried over exactly when framework and properties stay and the stamp is, field by field, of the new inputs with its artifacts intact; otherwise the new tree has none. |
| CompilationCache.DexoptCache.FinishRebuild | Scripts/Android/android_managed.py:993-997 | The stamp changes only for what was carried over, after the runtime was recorded. |
| SettingsKey.OneKey | Scripts/Android/android_managed.py:258-285 | In every interleaving of any number of callers, all calls that return get the same 32 bytes. |
| SettingsKey.TargetNeverChanges | Scripts/Android/android_managed.py:269-277 | Once the key file exists it is never replaced and its bytes never change. |
| SettingsKey.TargetIsSomeonesKey | Scripts/Android/android_managed.py:270-275 | On a device that had none, the published key holds, in every interleaving, exactly the random bytes that one of the callers was given. |
| SettingsKey.ReadsComplete | Scripts/Android/android_managed.py:278-285 | If no damaged key existed at first, every read sees a complete key. |
| SettingsKey.DamagedNeverReplaced | Scripts/Android/android_managed.py:283-284 | With a damaged key file no call ever returns and the file is left alone. |
| SettingsKey.OthersUndisturbed | Scripts/Android/android_managed.py:267-277 | No caller disturbs another one's temporary file or the published key. |
| SettingsKey.KeyDirectory.PublishKey | Scripts/Android/android_managed.py:269-277 | Afterwards there is a target; one that was there before is unchanged, and if it is this caller's file it holds this caller's random bytes. |
| SettingsKey.KeyDirectory.SettingsUserKey | Scripts/Android/android_managed.py:258-285 | Returns the bytes of the target, exactly when there are 32 of them; raises only if the target was damaged before. |
| ActivityReport.Conservation | Scripts/Android/android_managed.py:146-178 | For every trace, summed over all entries: calls + orphan completions = returns + throws + unfinished + calls displaced by a reused (pid, id). |
| ActivityReport.BalancedIffNoReuse | Scripts/Android/android_managed.py:146-178 | The books balance exactly when no (pid, id) is reused while pending. |
| ActivityReport.ReusedCall | Scripts/Android/android_managed.py:158-178 | A concrete trace whose books do not balance: two calls with one (pid, id) and one return. |
| ActivityReport.EntryConservation | Scripts/Android/android_managed.py:146-178 | When every completion matches its call's service and signature and no (pid, id) is reused while pending, the equation holds for each entry separately. |
| ActivityReport.ThrowsFiled | Scripts/Android/android_managed.py:172-174 | The exception counts of an entry add up to its throws. |
| ActivityReport.FinishTotals | Scripts/Android/android_managed.py:178 | The final pass adds one unfinished call for each pending one and changes no other count. |
| ActivityReport.FinishTakesOut | Scripts/Android/android_managed.py:178 | The final pass gives the same report whatever order it takes the pending calls in. |
| ReportPass.ActivityApiReport | Scripts/Android/android_managed.py:132-187 | None exactly when no catalog was seen; otherwise, line by line: which entries there are, for each its numbers of calls, returns, throws and throws of each exception, its unanswered calls, first caller, last failure and last declared coverage; the orphan completions, invalid lines and flags; the last interface of each service. It is the fold that the conservation laws are about. |
| ReportPass.ReadLines | Scripts/Android/android_managed.py:146-177 | The loop over the lines computes the fold. |
| ReportPass.ReadCall | Scripts/Android/android_managed.py:159-168 | A call of one of the three services takes the step of the fold, and no other does anything. |
| ReportPass.ReadCompletion | Scripts/Android/android_managed.py:169-175 | So does a completion. |
| ReportMeaning.EntriesMean | Scripts/Android/android_managed.py:138-178 | An entry is in the report exactly when a catalog declares it or a record concerns it, and each of its fields is what the lines say. |
| ReportMeaning.EntryCounted | Scripts/Android/android_managed.py:163-171 | Calls, returns and throws of an entry are the numbers of its lines of each kind. |
| ReportMeaning.EntryFiled | Scripts/Android/android_managed.py:172-174 | Each exception is counted as often as it was thrown in the entry, and listed exactly when it was. |
| ReportMeaning.EntryEnds | Scripts/Android/android_managed.py:166-175 | The first caller is that of the first call, the last failure that of the last throw, and neither is there without one. |
| ReportMeaning.EntryCovers | Scripts/Android/android_managed.py:153-157 | The coverage of an entry is that of its last declaration, or unclassified. |
| ReportMeaning.PendingIs | Scripts/Android/android_managed.py:162-170 | A call is pending exactly when no later call or completion has its (pid, id), and under its own entry. |
| ReportMeaning.UnfinishedAre | Scripts/Android/android_managed.py:178 | The pending calls of an entry are as many as its calls that nothing answers. |
| ReportMeaning.OrphansAre | Scripts/Android/android_managed.py:170 | The orphans are the completions before which no unanswered call has their (pid, id). |
| ReportMeaning.InterfacesAre | Scripts/Android/android_managed.py:154-155 | The interface of a service is that of its last catalog. |
| ReportMeaning.FlagsAre | Scripts/Android/android_managed.py:146-151 | Invalid lines are counted, truncation and the end of the trace noted exactly when they occur. |
| ReportPass.MarkUnfinished | Scripts/Android/android_managed.py:178 | The loop over the pending calls counts each once, under its own entry. |
| ReportPass.DeclareAll | Scripts/Android/android_managed.py:156-157 | Afterwards each declared entry is there with the coverage declared for it last, and every other entry is as it was. |
| ActivityReport.DeclareCovers | Scripts/Android/android_managed.py:156-157 | The same of the fold that the conservation laws are about. |
| ActivityReport.DeclareKeepsCounts | Scripts/Android/android_managed.py:156-157 | A catalog changes nothing but the coverage of an entry. |
| GamepadRuns.RepeatRate | Scripts/Android/android_gamepad.py:76-85 | During one hold that first fired at t0, the k-th repeat comes at t0 + 0.4 + 0.11 (k - 1) s or later, whatever the clock does. |
| GamepadRuns.RepeatsIff | Scripts/Android/android_gamepad.py:76-85 | While an action is held, it fires again exactly at the polls at least 0.4 s after the press, while it has not repeated, or else at least 0.11 s after its latest repeat. |
| GamepadRuns.FiresAtEdge | Scripts/Android/android_gamepad.py:73-85 | Of two polls in a row, the second fires every action that is newly down, none that is not down, and of those down at both only repeatable ones. |
| GamepadRuns.HeldTimes | Scripts/Android/android_gamepad.py:76-85 | With a monotone clock, after each poll every held action is down and repeatable, and next due in (now, now + 0.4]. |
| GamepadRuns.RunHeldFits | Scripts/Android/android_gamepad.py:49-85 | In every run held actions are repeatable and were down at the latest poll, and none is held before a baseline poll. |
| GamepadRuns.HeldBack | Scripts/Android/android_gamepad.py:49-85 | An action down at every poll since the baseline poll never fires, neither as a press nor as a repeat, until it was released. |
| GamepadRuns.NothingAfterReset | Scripts/Android/android_gamepad.py:49-51 | Neither a reset nor the first poll after it fires anything. |
| GamepadRuns.FocusLossResets | Scripts/Android/android_gamepad.py:310-313 | Losing the focus resets the actions and the stick, at any point of any history. |
| GamepadRuns.EdgesExact | Scripts/Android/android_gamepad.py:73-85 | An action that does not repeat fires exactly as often as it goes from not down to down between polls since the baseline. |
| GamepadRuns.StickIffLeaning | Scripts/Android/android_gamepad.py:57-65 | Over a sequence of readings the stick is active exactly when one leaned 0.55 and all from it to the latest 0.35. |
| GamepadRuns.StickHysteresis | Scripts/Android/android_gamepad.py:53-66 | The same over every run of ticks with any number of pads, since the last reset; an active stick points along the dominant axis of the latest reading. |
| GamepadRuns.OnePadOneDirection | Scripts/Android/android_gamepad.py:53-66 | A single pad contributes its buttons and at most one stick direction, the current one. |
| GamepadRuns.DirectionOf | Scripts/Android/android_gamepad.py:58-62 | Which axis leans further, and to which side, gives which direction; the lean is the greater of the two. |
| GamepadRuns.ButtonTable | Scripts/Android/android_gamepad.py:21-31 | Each action is down on a pad exactly when its one button, by number, is. |
| GamepadRuns.RepeatingActions | Scripts/Android/android_gamepad.py:32 | The six actions that repeat. |
| GamepadRuns.DownIff | Scripts/Android/android_gamepad.py:53-66 | An action is down exactly when a button of some pad gives it or the stick points to it after that pad. |
| PadReading.InOrderSorts | Scripts/Android/android_gamepad.py:77 | The new presses come sorted, each once. |
| PadReading.LoopsMeetSpec | Scripts/Android/android_gamepad.py:77-85 | The two loops over the dictionary leave exactly the next repeat times and repeats that the run lemmas are about. |
| PadReading.PadReader.ReadDown | Scripts/Android/android_gamepad.py:53-66 | The loop over the pads, with the stick moved along in place. |
| PadReading.PadReader.Enter | Scripts/Android/android_gamepad.py:78-79 | Repeating presses get their first repeat time; the entries keep their order. |
| PadReading.PadReader.Work | Scripts/Android/android_gamepad.py:80-83 | Released entries go; exactly the due ones that were not pressed in this poll fire, each once, after the presses. |
| PadReading.PadReader.PollActions | Scripts/Android/android_gamepad.py:74-85 | The in-place poll takes the step of the specification; a baseline poll only records. |
| PadReading.PadReader.PollPads | Scripts/Android/android_gamepad.py:68-85 | No action fires twice in one poll, the new presses come first and sorted, and the reader stays in a state its history of ticks leads to. |
| PadReading.PadReader.ResetReader | Scripts/Android/android_gamepad.py:49-51 | Leaves the initial state. |

## Left out

- Processes, sockets, Qt, SDL and JSON text: abstract steps and opaque values stand for them.
- Two `ProcessHost` objects in one OS process: record locks are process-scoped and do not separate them.
- A supervisor that is itself killed: the kernel drops its locks while its children may still be dying.
- `ProcessSupervisor.ProcessHost.Spawn`: a UID leased before the log or trace directory failed stays leased until `close`, as in the code, so only "every isolated child is leased" is an invariant, not the converse.
- `ProcessSupervisor.ProcessHost.Spawn`: malformed requests (missing fields, values of other types) and the command line of the child are not modelled.
- `ProcessSupervisor.ProcessHost.Stop`: that an expired wait also ends the serving thread, whose error handling does not list `TimeoutExpired`, is not modelled.
- `ProcessSupervisor.ProcessHost.Close`: models the first close; the listener, the thread join and the broker are not part of it, and a close repeated after one that raised may take any of the machine's steps.
- `ProcessSupervisor.SharedRealm.Yield`: the steps of the others are its contract; its own body takes none.
- `Links.LinkOpener.OpenUrl`: `Opened` covers a Popen that raises after the open was recorded.
- `TaskControl.TaskControl.Home`: the requests of one supervisor are served one at a time, so one `home` at a time.
- Concurrent exchanges with the shared account directory: exchanges do not overlap here, sessions do. A launch is an import followed by the beginning of the session.
- Account files that are symlinks, special or oversized, `apply_games_profile`, and the account files of other formats.
- `ActivityCompletion.Completion.FinishRequest`: a staged answer that cannot be deleted, which the code ignores, is deleted here.
- `SharedAccounts.RemoveAccount`: an unreadable or malformed store raises as a missing account does.
- `ManagedRuntime.ManagedDirectory.Prepare`: the parts of a runtime tree are an enumeration instead of path prefixes; checks of adapters, symlinks and permissions, and the directories that `ensure_app_data` creates, are not modelled.
- `CompilationCache.DexoptCache.Dexopt`: stamps older than schema 2, symlinked outputs and apps without a base APK are not modelled; profman is an arbitrary new reference profile; that the result depends on nothing but the key is the cache's own assumption.
- `SettingsKey.KeyDirectory.SettingsUserKey`: redirected directories and special files as the target are not modelled, nor is a host crash that loses the directory entry of a key just linked.
- `ReportPass.ActivityApiReport`: the order in which entries are listed and the derived method counts are not modelled, nor are records with missing fields, which raise.
- Gamepad labels, names and the translation of actions to keys: tables and pure text.
- Option parsing, the window plugin, Binder constants, generated tables and the desktop entries.
