# Votport: what survives crashes, clocks and other people

Votport moves files between organisations. This project models, in Dafny, the parts of its
server and protocol whose promises must hold across crashes, restarts, clock jumps, concurrent
tasks and inputs of any size, and proves those promises over every run and every input.

`dafny verify dfyconfig.toml` checks the whole project.

| Module | Models |
|---|---|
| `RestorePlan`, `Restore` | the marker-driven restore applied at boot, killed between any two file steps |
| `Rotation` | pruning of the local archives, and what a backup run does while the remote copy fails |
| `Custody` | signed routes and receipts as a hash-linked, loop-free, bounded chain |
| `ManifestPreimage` | the bytes the manifest digests feed to the hash |
| `Calendar` | the civil date of a Unix second, against counting days |
| `PortablePaths`, `CollisionSuffix` | the neighbour check for colliding names; numbered names within a byte budget |
| `Throttle`, `Tokens` | password-guess throttles over whole runs; signed tokens and download leases |
| `RetentionClock`, `RetentionSweep`, `AgeRetention` | the clock that may permit age deletion; what a sweep may delete; both together |
| `SsoSlot` | one discovery at a time, paced, with cancellation at any await |
| `ReceiveRoot` | the lock on the receive root while others rename things |
| `Sorting`, `ByteOrder`, `Utf8`, `Decimal`, `Wrappers` | the library pieces those rest on |

How the model speaks of what it cannot see: a boot, a backup run and a sweep have a budget of durable
steps and die when it runs out, so "any budget" is "killed anywhere" (and, of a boot, also "any step
failed"). Hashes, MACs, signatures, database checks and database rewriting are functions the lemmas
quantify over, under named assumptions (`RestorePlan.Sound`, `Custody.Sound`, `Tokens.DotFree`).
Clock readings, random draws, failures of calls and the doings of other processes are parameters, so
a theorem about a run is about every choice of them.

Six places where the code does something its reader might not expect, stated exactly:

- every file of a restore appears whole but one: the new session secret is created and then filled,
  and a boot that dies in between leaves part of it, which the next boot keeps and which cannot be
  loaded (`Restore.RunBoots` says for which runs, by the steps each boot lives for;
  `Restore.CutRun` shows one);
- a backup run that fails after its archive was built removes whatever has the archive's name, even
  an older archive that had taken the name before (`Rotation.Backups.RunInner`);
- a numbered name can equal the name it was made from (`CollisionSuffix.FixedPoint` says when);
- the route digest ignores the order of files only between different names: files that share a
  name keep their order (`ManifestPreimage.RoutePreimageIdentifies`, `RepeatedNameKeepsOrder`);
- `rfc3339` is exact for every second, but its text is the 20 characters that section 5.6 of
  RFC 3339 allows only before the year 10000 (`Calendar.FourDigitYears`);
- the subtraction behind the age rule of local pruning falls back to the epoch when it underflows,
  and that never deletes an archive made since the epoch (`Rotation.AgeIsExact`).

## Model

| member | source | states |
|---|---|---|
| RestorePlan.StageIsArchived | server/src/backup.rs:1112-1192 | a stage that passes holds exactly the manifest's files, only archive files, a database and keys of 32 bytes, a certificate only with the key it pairs with, and no session secret |
| RestorePlan.SomeRestore | server/src/backup.rs:1112-1164 | the assumptions of the restore theorems can be met: a sound host with a stage that passes every check |
| RestorePlan.NothingIsLost | server/src/backup.rs:1446-1464 | on every disk a boot can leave, each of the eight pre-restore files is intact in exactly one of the live and rollback directories, and in the rollback directory from the second phase on |
| RestorePlan.OthersStay | server/src/backup.rs:1396-1516 | every other file of the data directory, but for the two backup settings files, is untouched at every moment of a restore |
| RestorePlan.OldSecretNeverReturns | server/src/backup.rs:1505-1516 | once the old files are saved, a live session secret is one drawn since, or as much of it as was written |
| RestorePlan.SaveKeepsInv | server/src/backup.rs:1429-1465 | the saving phase, cut short anywhere, keeps the invariant of all reachable disks and never finds a file already saved |
| RestorePlan.InstallKeepsInv | server/src/backup.rs:1467-1501 | so does the installing phase, which absent tampering never refuses |
| RestorePlan.PlacedOnce | server/src/backup.rs:1467-1490 | wherever installing stopped, each manifest file is in exactly one of its two places, unchanged |
| RestorePlan.NoObstacle | server/src/backup.rs:1467-1496 | hence "exists twice", "is missing", both digest errors and the database error cannot occur |
| RestorePlan.FinishKeepsInv | server/src/backup.rs:1503-1530 | the last phase keeps the invariant when cut short and otherwise ends at the final disk |
| RestorePlan.FinishMakes | server/src/backup.rs:1507-1516 | and of the secret it makes nothing, a whole one, or part of one exactly if it was cut; one already there stays |
| RestorePlan.FinishedAgain | server/src/backup.rs:1503-1526 | finishing what was half finished gives what finishing at once would have given, secret kept |
| RestorePlan.FirstBootNeedsSoundStage | server/src/backup.rs:1401-1418 | a boot goes on from an untouched marker exactly if its stage is sound, so the run theorems cover every restore that is not refused at once |
| RestorePlan.NoBootProblem | server/src/backup.rs:1396-1427 | the checks at the head of a boot pass on every disk an interrupted boot leaves |
| RestorePlan.FinalDiskHolds | server/src/backup.rs:1467-1530 | the final disk name by name: every manifest file with its digest, the prepared database, the new secret, nothing else of the old files, the old files in rollback, no stage, marker, WAL or SHM |
| RestorePlan.EndsAlike | server/src/backup.rs:1396-1530 | two ways to the end differ in nothing but the secret and the rollback directory's name |
| RestorePlan.SavingMovesOn | server/src/backup.rs:1429-1465 | the steps the saving phase takes, and what one cut short leaves: all but naming the rollback directory is done once |
| RestorePlan.InstallingMovesOn | server/src/backup.rs:1467-1501 | the steps the installing phase takes, and what one cut short leaves: nothing is done twice |
| RestorePlan.FinishingPays | server/src/backup.rs:1503-1530 | at how many steps the last phase ends, is cut short, makes the secret and drops the stage |
| RestorePlan.WorkAtFirst | server/src/backup.rs:1396-1501 | the steps before the last phase, counted off the disk of a restore about to begin |
| Restore.DataDir.SaveFiles | server/src/backup.rs:1446-1460 | the eight files move and none is overwritten, lost or changed; done means none is left; a refusal names a file in both places |
| Restore.DataDir.SaveOld | server/src/backup.rs:1429-1465 | on any disk: nothing moves before the rollback name is durable, and the marker advances only when no old file is left |
| Restore.DataDir.InstallFiles | server/src/backup.rs:1467-1490 | on any disk: files move from the stage without overwriting; done means every entry is live with its digest and gone from the stage; a refusal has its reason |
| Restore.DataDir.InstallNew | server/src/backup.rs:1467-1501 | the marker advances only over installed files that match the manifest and a sound database |
| Restore.DataDir.CreateSecret | server/src/auth.rs:82-94 | the file is created and then filled; a process that dies in between leaves part of the secret |
| Restore.DataDir.Renew | server/src/backup.rs:1503-1516 | database prepared, settings reset, an existing secret kept and a missing one made; it is cut short exactly if the process dies at the step that would fill the file |
| Restore.DataDir.Finish | server/src/backup.rs:1503-1530 | the marker goes last, after the stage, and only once everything else is done |
| Restore.DataDir.ApplyPendingRestore | server/src/backup.rs:1396-1548 | unless it starts in the last phase, what it applies has the files its manifest promised, whatever the disk held; on a disk that follows from a sound stage a boot never refuses, and ends at the final disk or leaves a disk the next can go on from; which of these, at which number of steps it leaves part of a secret, and what work it leaves are told by the work it met and the steps it lived for |
| Restore.RunBoots | server/src/backup.rs:1396-1548 | crash transparency: how each of any number of boots killed anywhere ends is told beforehand by the steps each lives for; the first that lives long enough ends the restore, as one uninterrupted boot would and with a secret that can be loaded if and only if by that reckoning no boot dies between creating and filling the secret's file; until then every disk keeps the invariant, and each boot goes on from the disk the one before left |
| Restore.RunEnds | server/src/backup.rs:1396-1548 | so does every run of boots, whatever was drawn and wherever each was killed |
| Restore.WholeOrPart | server/src/backup.rs:1507-1516 | what is left when such a run ends: everything as in an uninterrupted boot, but for part of a secret drawn since in place of a whole one if a boot was cut |
| Restore.CutAtFirst | server/src/backup.rs:1429-1516 | the first boot is cut exactly if it lives for 8 steps and one for each file it saves or installs |
| Restore.LongBootEnds | server/src/backup.rs:1396-1548 | a boot that lives for all the work there was at first ends the restore, whatever boots went before |
| Restore.CutRun | server/src/auth.rs:82-94 | it does happen: a run of two boots ends with an empty secret |
| Restore.DataDir.WritePendingRestore | server/src/backup.rs:1312-1357 | a marker already being applied is never replaced; given a new existing stage the marker names an existing stage on every outcome; a stage that passes the checks becomes the start of a restore |
| Rotation.IndexIsRank | server/src/backup.rs:1891-1902 | in the sorted listing an archive's index is how many archives come before it, whatever order the directory had |
| Rotation.SurvivorsAreInFront | server/src/backup.rs:1891-1911 | survivors are the front of the order plus the protected archive |
| Rotation.TheOldestGo | server/src/backup.rs:1891-1911 | no unprotected survivor is older than an archive that goes |
| Rotation.CountIsKept | server/src/backup.rs:1906-1909 | with a positive count at most that many remain, and without an age rule exactly that many or all |
| Rotation.ZeroKeepsAll | server/src/backup.rs:1906-1908 | zero means unlimited |
| Rotation.PruningTwice | server/src/backup.rs:1882-1913 | pruning twice with the same arguments is pruning once |
| Rotation.AgeIsExact | server/src/backup.rs:1897-1901 | saturation and underflow included, an archive made since the epoch is too old exactly when its age exceeds the window |
| Rotation.Backups.PruneLocal | server/src/backup.rs:1882-1913 | the loop leaves exactly the survivors, fails exactly when something due to go cannot be removed, and even then, or if its process dies, loses nothing due to stay |
| Rotation.Backups.PruneOutageCopies | server/src/backup.rs:1919-1931 | the same for the outage rule, by whole seconds |
| Rotation.Backups.RunInner | server/src/backup.rs:2356-2507 | what each destination leaves of the local root, what the cleanup leaves of a run that fails before publishing, what a process that dies at any step leaves, and whether every copy asked for exists |
| Rotation.Backups.RunOperation | server/src/backup.rs:2302-2330 | success is recorded exactly when every copy exists, even if pruning failed after that, and the process lives to record it; an unreadable status counts as none |
| Rotation.NewArchiveStays | server/src/backup.rs:2452-2486 | a run never loses the local archive it just made, even if its process dies |
| Rotation.RunAll | server/src/backup.rs:2302-2330 | consecutive runs, each starting from what the one before left, some of them killed half way |
| Rotation.RecordStays | server/src/backup.rs:2302-2330 | over any number of runs whose upload fails or whose process dies the recorded success stays |
| Rotation.OldArchivesSurvive | server/src/backup.rs:2459-2486 | over any number of runs whose upload fails, wherever their processes die, every archive of before survives, unless a run builds one of the same name |
| Rotation.OnlyNewestIsKept | server/src/backup.rs:1919-1931 | and if nothing obstructed or cut short the pruning of a run that published, and no run since left an archive, only its archive is kept of those taken since |
| Rotation.CompleteRunSurvives | server/src/backup.rs:1915-1931 | the archive of the last complete run survives any outage that follows it |
| Custody.AncestryIsCustodyChain | protocol/routes.rs:279-299 | an accepted ancestry is a loop-free chain: receipt i issued by port i, received by port i+1, same manifest, and any permission names that receiver and allows forwarding |
| Custody.PrefixesVerify | protocol/routes.rs:279-299 | every prefix of an accepted ancestry is accepted for its own source |
| Custody.AncestryIsUnique | protocol/routes.rs:279-299 | two ancestries accepted for one source are equal, or hold two different receipts with the same digest |
| Custody.CollisionFreeAncestry | protocol/routes.rs:279-299 | so a digest without collisions leaves one ancestry |
| Custody.ReceiptVerifies | protocol/routes.rs:302-334 | a receipt signed by an admitted receiver verifies for that receiver |
| Custody.NextRouteVerifies | protocol/routes.rs:218-265 | the next route verifies exactly while there is room for one more port |
| Custody.ForwardingVerifies | protocol/routes.rs:218-334 | forwarding extends an accepted ancestry to an accepted ancestry, exactly while there is room |
| Custody.ForwardingRuns | protocol/routes.rs:230-334 | every state of every forwarding run is accepted, and the ports visited count up to at most eight |
| Custody.RunsAreShort | protocol/routes.rs:246-248 | so 8 less the ports visited bounds the length of every run |
| Custody.SomeForwarding | protocol/routes.rs:218-334 | the assumptions of these theorems can be met: a scheme as assumed, an accepted route and a port that forwards it |
| ManifestPreimage.FeedManifest | protocol/delivery.rs:7-23 | the update calls feed bytes that decode to the list given |
| ManifestPreimage.DecodeRoundTrip | protocol/delivery.rs:7-23 | what was fed reads back as the list, in its order |
| ManifestPreimage.DecodeIsCanonical | protocol/delivery.rs:7-23 | nothing else decodes: a decodable string is the encoding of its list |
| ManifestPreimage.PreimageIsInjective | protocol/delivery.rs:7-23 | same bytes, same list, same order |
| ManifestPreimage.FeedRouteManifest | protocol/routes.rs:8-14 | the route form feeds a list sorted by name with the same files |
| ManifestPreimage.RoutePreimageIdentifies | protocol/routes.rs:8-14 | the route form identifies exactly the files under each name in their order |
| ManifestPreimage.RoutePreimageIsSetLike | protocol/routes.rs:8-14 | with distinct names it identifies exactly the set of files |
| ManifestPreimage.RepeatedNameKeepsOrder | protocol/routes.rs:12 | with a repeated name the order given still matters |
| Calendar.EraArithmetic | server/src/receipt.rs:347-349 | the closed-form year and day of year read the 400-year clock of leap years |
| Calendar.NextDayIsSuccessor | server/src/receipt.rs:344-354 | the day after day n is its calendar successor, leap rules included |
| Calendar.CivilIsCounting | server/src/receipt.rs:340-354 | the closed form is counting days one by one from 1970-01-01 |
| Calendar.DatesIncrease | server/src/receipt.rs:340-354 | later days have later dates |
| Calendar.MomentIsPrintable | server/src/receipt.rs:340-361 | every second has a valid date and time of day that give it back |
| Calendar.TextDeterminesSecond | server/src/receipt.rs:355-360 | two seconds never share a text |
| Calendar.FourDigitYears | server/src/receipt.rs:342-360 | the text has the 20 characters of section 5.6 of RFC 3339 exactly before the year 10000 |
| PortablePaths.AdmitPortablePaths | server/src/paths.rs:363-390 | a list is admitted exactly when every name has a key and no pair anywhere clashes; a refusal names a pair that does |
| PortablePaths.FirstNeighbours | server/src/paths.rs:381-388 | the scan finds a neighbouring clash if there is one |
| PortablePaths.Between | server/src/paths.rs:376-383 | what sorts between a path and something below it is that path or below it too |
| PortablePaths.NeighboursDecide | server/src/paths.rs:380-388 | on sorted keys some neighbours clash exactly when some pair does |
| PortablePaths.SortingExposesClashes | server/src/paths.rs:380-388 | sorting creates and loses no clash and brings one next door |
| PortablePaths.AdmissionIgnoresOrder | server/src/paths.rs:363-390 | the answer does not depend on the order of the list |
| CollisionSuffix.WithSuffix | server/src/paths.rs:404-430 | the bytes are a whole-character cut of the stem, the number and the extension, within 242 bytes whenever the suffix is |
| CollisionSuffix.CutPoint | server/src/paths.rs:423-428 | the loop ends at the longest whole-character prefix within the budget |
| CollisionSuffix.FitIsLongest | server/src/paths.rs:423-428 | that prefix is the longest that fits |
| CollisionSuffix.FitsTheBudget | server/src/paths.rs:416-429 | the result fits whenever the suffix alone fits, and is the suffix alone otherwise |
| CollisionSuffix.RoomLosesNothing | server/src/paths.rs:423-429 | a name that leaves room is not cut |
| CollisionSuffix.KeepsExtension | server/src/paths.rs:408-415 | the result has the extension of the name |
| CollisionSuffix.AttemptsDiffer | server/src/paths.rs:403-430 | distinct attempts give distinct names, however they are cut |
| CollisionSuffix.FixedPoint | server/src/paths.rs:404-430 | the result is the name itself exactly when the name's stem ends in that number and the cut removes just that |
| CollisionSuffix.FullNumberedName | server/src/paths.rs:404-430 | there is such a name: 240 letters followed by "-1" |
| Utf8.BoundaryIsPrefixEnd | server/src/paths.rs:426 | character boundaries are exactly the ends of whole-character prefixes |
| Tokens.ConstantTimeEqIsEquality | server/src/auth.rs:405-410 | the XOR and OR fold is equality |
| Tokens.GenuineVerifies | server/src/auth.rs:107-135 | what was issued and is in date verifies |
| Tokens.VerifiedIsGenuine | server/src/auth.rs:114-135 | what verifies was printed by the issuer for some expiry ahead and some nonce, spelling included |
| Tokens.ExpiredTokenFails | server/src/auth.rs:114-135 | from its expiry on it is refused |
| Tokens.OneSpelling | server/src/auth.rs:376-403 | a string verifies for a holder exactly when it is the printer's output for that holder |
| Tokens.IssueThenVerify | server/src/auth.rs:348-403 | a fresh lease names its holder until its expiry and not from then on |
| Throttle.GrantKeepsPace | server/src/auth.rs:442-455 | one more grant keeps every six consecutive grants a minute apart |
| Throttle.GrantsTakeTime | server/src/auth.rs:442-455 | n grants need at least a minute per five |
| Throttle.FreshCountersKeepPace | server/src/auth.rs:529-540 | forgetting an entry idle that long cannot weaken the bound |
| Throttle.LoginThrottle.Claim | server/src/auth.rs:442-455 | refused exactly under a lockout; counters and log after a grant |
| Throttle.LoginThrottle.Succeeded | server/src/auth.rs:456-462 | a correct password clears the claims |
| Throttle.IpThrottle.Claim | server/src/auth.rs:497-521 | refused exactly under the key's live lockout; the table after, at most one entry larger and within its cap; whom it displaced |
| Throttle.IpThrottle.EvictIfFull | server/src/auth.rs:529-568 | there is room afterwards, and only a new key on a full table displaces anyone |
| Throttle.LiveLockoutsGoLast | server/src/auth.rs:546-566 | a live lockout is displaced only when every entry holds one |
| Throttle.RunsArePaced | server/src/auth.rs:475-568 | in every run, however long and whoever was displaced, the grants of a key since it was last cleared or displaced are paced, and the table stays within its cap |
| Throttle.RunsTakeTime | server/src/auth.rs:475-568 | so a key neither cleared nor displaced needs at least a minute per five grants |
| Throttle.RunThrottle | server/src/auth.rs:475-568 | the run itself: the grants returned are exactly the granted claims of the key, a claim is granted exactly when no live lockout forbids it, and a key is displaced only from a full table and only as its victim |
| RetentionClock.Installation.constructor | server/src/app.rs:92-103 | what an installation starts from: its acknowledged time, or none |
| RetentionClock.Installation.Restart | server/src/app.rs:92-103 | a restart resumes from the stored time with a new monotonic clock |
| RetentionClock.Installation.Observe | server/src/app.rs:142-165 | stored time never goes back; a permitting answer is no later than the acknowledged time plus uptime, nor than the wall clock |
| RetentionClock.Installation.Acknowledge | server/src/app.rs:167-174 | the later of the stored and the vouched time becomes the anchor; a time ahead of the wall is refused |
| RetentionClock.RunsStayValid | server/src/app.rs:91-174 | in every state of every run of observations, restarts and acknowledgements the stored time is earned since the last acknowledgement and has not gone back |
| RetentionClock.QuietRuns | server/src/app.rs:92-103 | between acknowledgements the uptime is what the events account for |
| RetentionClock.RunsAreBounded | server/src/app.rs:142-165 | between acknowledgements no stored time and no permitting answer passes the acknowledged time plus the uptime since, and without an anchor none permits |
| RetentionClock.Replay | server/src/app.rs:91-174 | the run itself: each state follows from its event and each answer is the answer to its event |
| RetentionSweep.NarrowestIsNarrowest | server/src/app.rs:4013-4023 | the window is set at some level and no wider than any level that sets one |
| RetentionSweep.BeforeCutoffIsOlder | server/src/app.rs:3991 | saturation included, before the cutoff means exactly that the whole window has passed |
| RetentionSweep.Link.ProtectGranted | server/src/app.rs:3482-3509 | protects exactly the files some active grant reaches and reports exactly the grants that reach none |
| RetentionSweep.Link.SelectExpired | server/src/app.rs:3443-3541 | what may go is exactly what no live, recent or granted record holds; one closed gate or unresolved grant and nothing may |
| RetentionSweep.Link.ExpireUploads | server/src/app.rs:3437-3580 | exactly what may go is tombstoned; at whatever step the process dies, the log accounts for every change to records and disk, and each removal follows its tombstone |
| RetentionSweep.Link.RemoveOne | server/src/app.rs:3560-3567 | bytes go only when nothing is on record under their path |
| RetentionSweep.Link.RemoveEach | server/src/app.rs:3560-3567 | the removals, all logged, up to the step at which the process dies; a refused one is skipped |
| RetentionSweep.TombstonesEndRecords | server/src/store.rs:2166-2193 | tombstoning ends exactly the live records of the paths named |
| RetentionSweep.SweepLink | server/src/app.rs:3982-3999 | every removal is logged after its tombstone, and what goes was on record and is no more, ungranted, and older than every window that is set |
| RetentionSweep.SweepUnderClock | server/src/app.rs:3839-3846 | all of that by the clock's effective time, and without the clock's permission nothing goes |
| AgeRetention.TakeTurn | server/src/app.rs:3822-3846 | a sweep begins with the clock and goes by its answer |
| AgeRetention.SweepsAreEarned | server/src/app.rs:3822-3999 | over any run of sweeps, restarts and other changes since an acknowledgement, whatever a sweep removes was on record and had completed a whole window before the acknowledged time plus the uptime since; without an acknowledgement nothing ever goes |
| SsoSlot.Slot.Enter | server/src/app.rs:959-974 | who starts, who is served, who is refused; once a cooldown has passed only a live discovery refuses |
| SsoSlot.Slot.Settle | server/src/app.rs:978-1000 | a result is stored unless a client is already there |
| SsoSlot.Slot.DropClaim | server/src/app.rs:899-908 | a dropped claim never leaves the slot discovering |
| SsoSlot.Slot.InvalidateReady | server/src/app.rs:949-957 | only a ready slot flips |
| SsoSlot.RunsAreValid | server/src/app.rs:881-1001 | in every state of every interleaving of callers, results, cancellations and invalidations, discovery starts are a cooldown apart and the slot is never discovering without a live claim |
| SsoSlot.StartsArePaced | server/src/app.rs:959-974 | any two events of a run that start a discovery are a cooldown apart |
| SsoSlot.NeverWedged | server/src/app.rs:893-908 | a caller refused a cooldown after everything else that happened is held off by a live discovery |
| SsoSlot.Interleave | server/src/app.rs:881-1001 | the run itself: each state follows from its event, and the starts returned are all of them |
| ReceiveRoot.Exclusive | server/src/lease.rs:102-123 | whatever happened outside, at most one live guard passes the namespace check |
| ReceiveRoot.NextIsSound | server/src/lease.rs:54-176 | every step keeps each lock with the one process that will free it |
| ReceiveRoot.LockedOutWhileOwned | server/src/lease.rs:72-82 | through the names a current owner still passes nobody else gets the lock |
| ReceiveRoot.InspectedIsAlone | server/src/lease.rs:96-97 | whoever passes the checks under the lock is alone |
| ReceiveRoot.RemovalSparesOthers | server/src/lease.rs:165-176 | whatever others did since a drop read its record, its removal takes away no record that names another holder |
| ReceiveRoot.OtherStepsSpareRecords | server/src/lease.rs:54-176 | no step but a write and that removal touches a record |
| ReceiveRoot.DeathFreesLock | server/src/lease.rs:72-82 | a process that dies with the lock leaves its record and frees the lock: who tries next gets it |
| ReceiveRoot.Root.TryLock | server/src/lease.rs:72-82 | the lock is taken exactly when its inode is free |
| ReceiveRoot.Root.CheckOpening | server/src/lease.rs:96-97 | an acquisition goes on exactly when names and lock are still its own |
| ReceiveRoot.Root.Publish | server/src/lease.rs:83-99 | a guard lives exactly if its record was written, and otherwise is dropped |
| ReceiveRoot.Root.CheckRenewal | server/src/lease.rs:125-131 | renewal goes on exactly when names, lock and record are still ours |
| ReceiveRoot.Root.WriteRenewal | server/src/lease.rs:132-136 | the in-memory heartbeat changes exactly when the write succeeded |
| ReceiveRoot.Root.ReadRecord | server/src/lease.rs:167-168 | a drop reads its record and looks whose it is |
| ReceiveRoot.Root.RemoveRecord | server/src/lease.rs:169-170 | then removes the name if it still leads to the file it read |
| ReceiveRoot.Root.Unlock | server/src/lease.rs:173-174 | and frees the lock |
| ReceiveRoot.Root.Die | server/src/lease.rs:72-82 | the death of a process frees its lock and changes nothing else |
| ReceiveRoot.RunsAreExclusive | server/src/lease.rs:54-176 | in every state of every interleaving with outside renames and replacements at most one guard passes |
| ReceiveRoot.DropsSpareOthers | server/src/lease.rs:165-176 | in every run, whatever comes between its reading and its removal, a drop never takes away another holder's record |
| ReceiveRoot.Interleave | server/src/lease.rs:54-176 | the run itself: each state follows from its event |

## Left out

- Restore: the contents of the database are left to two functions, one check and one rewriting taken as a single idempotent step (`server/src/backup.rs:1194-1295`); the clock values it stamps are not modelled.
- Restore: file steps are atomic and durable, so flushing order, permissions, symbolic links and temporary names are not modelled.
- Restore: archive extraction, the size limits of marker and manifest, the audit row of an applied restore, and `discard_staged_replica` (`server/src/backup.rs:1372-1394`), which removes the stage before the marker.
- RestorePlan.StageIsArchived: whether a certificate and a key pair is left to the host.
- Rotation: the remote pruning (`server/src/backup.rs:2190-2225`), which sorts by the same order over object times, encryption, archive building, failures of reading the directory and of writing the status file.
- Rotation.Backups.RunOperation: does not model the refusal while a restore is pending, nor the lock on the backup root.
- Custody: the signed bytes are the documents themselves, one kind of message per signing domain; JSON encoding, SHA-256 and ed25519 are functions under `Custody.Sound`. Route revocations are not modelled.
- ManifestPreimage: the hash itself; lists whose lengths and sizes reach 2^64 are outside `AllFit`, as they are outside the code's `u64`.
- PortablePaths: the component rules, the canonical key and Unicode folding are one function from name to key.
- CollisionSuffix: attempts are unbounded naturals where the code has `u32`.
- Tokens: the expiry sum `now + lifetime` is taken below 2^64; administrator and link tokens, which share the same token functions, are not restated.
- Throttle: a claim reads the clock twice in the model, once to compare and once to stamp; the code's extra readings inside one eviction are the second of these. The unlocked peek of `locked` is not modelled.
- RetentionClock: the status display and the SQL around the stored row.
- AgeRetention.SweepsAreEarned: one link at a time; what else happens to it between sweeps is arbitrary.
- RetentionSweep: path blanking, audit rows, paging over links and the second look at the receiving destinations; upload ids of a link are taken to be distinct, as the store keys them.
- SsoSlot: what discovery does; the drop of a settled claim is a step of its own.
- ReceiveRoot: ownership and mode bits of the root; the two identity comparisons of the namespace check are one step, and so are the comparison and the unlinking of `remove_owned`, whose source is not part of this model; files are identified by inode alone, and record files are written once.
- HTTP routing, sessions, native push, mail and chat senders, metrics, configuration and the web interface carry none of these promises.
