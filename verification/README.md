# Pastebox, verified model

Pastebox is a paste server: it stores pastes under short ids, in local files or in MySQL, with
passwords, tokens, expiry and "view once" policies, and it has an admin login and two one-time
migrations into MySQL. This project models the parts of it whose correctness depends on
interleaving, on crashes, or on how a byte stream is sliced, and proves what they promise for every
input and every run. `dafny verify dfyconfig.toml` covers every file.

## What is modelled

| files | component |
|---|---|
| `Common.dfy`, `PasteHistory.dfy` | small shared types, trimming; the metadata record, its checks, MySQL time columns; the log by which a store's run is judged |
| `Locks.dfy` | the reference-counted per-key read/write locks: the object (`Locks`) and the protocol of its users (`LockProtocol`) |
| `LocalStore.dfy`, `LocalStoreInv.dfy`, `LocalStoreSteps.dfy`, `LocalStoreTheorems.dfy` | every operation of the local paste store as concurrent steps over content files and sidecars |
| `LocalRuns.dfy`, `LocalAlone.dfy` | what each call of the local store does when nobody is in its way, from every state |
| `LabelUpdates.dfy` | the label update of the local store: what exactly its write changes, and what it can undo |
| `LocalProgress.dfy`, `LockOrder.dfy` | that every call of the local store ends; the key locks together with the mutex around the cached list |
| `MySqlStore.dfy`, `MySqlOnce.dfy`, `MySqlCaseVariants.dfy`, `MySqlSweeps.dfy`, `MySqlProgress.dfy` | the MySQL paste store as concurrent statements, the condition on ids under which its guarantees hold, what its lockless statements can do, and that its calls end |
| `MySqlRuns.dfy`, `MySqlAlone.dfy` | what each call of the MySQL store does when nobody is in its way |
| `ListCache.dfy` | the generation-stamped cache of the paste list: the object, and the object against a changing directory |
| `Utf8.dfy`, `Streams.dfy`, `Preview.dfy` | UTF-8 decoding (RFC 3629), readers that slice bytes in any way, the streaming preview |
| `Chunks.dfy` | paste content as rows in MySQL: writer, reader, round trip |
| `PasteMigration.dfy`, `AdminMigration.dfy` | the two restartable migrations |
| `AuthLimiter.dfy` | the sliding-window limiter for failed logins |
| `Upload.dfy` | the upload size limit |
| `Secrets.dfy` | rejection sampling, Fisher-Yates, generated passwords |
| `DataPolicy.dfy`, `Retention.dfy` | data policies, expiry, whole-second storage; policy and expiry over all runs of both stores |

Objects whose methods change their fields are classes, proved against functions of the old state; loops
of the source are loops here. The store operations interleave, so they are steps of a transition system
instead: a step is one lock operation, one file operation or SQL statement, or one decision, and a
theorem about a run is about every list of enabled steps of any number of threads. A step inside a
critical section is first judged on the values of its one key (`EffectKeeps`) and then carried to the
whole state (`Lift`). What such theorems cannot say, that a call gets anywhere, is said by `LocalAlone`
and `MySqlAlone`: from every state in which nobody is in its way, a run of the call ends as a table over
the fields of its record says, success and every kind of failure alike.

## What the proofs found

- MySQL compares ids without regard to case (the tables are `utf8mb4_unicode_ci`), the locks and the
  local directory do not. Each of the following holds of all runs if and only if no two ids in use
  differ only in case: callbacks of one-time views exclude each other
  (`MySqlCaseVariants.ExclusiveIffCaseDistinct`), one-time views are final and happen at most once
  (`AtMostOnceIffCaseDistinct`), rows are removed and changed only by calls entitled to it
  (`RemovalIffCaseDistinct`, `EditIffCaseDistinct`). The breaking runs are built: two Views under two
  spellings both succeed on one creation, and the second deletes a paste created in between that nobody
  has viewed; a password change checked against one paste locks the next one.
- The paste migration loses nothing exactly when local ids are distinct without regard to case and do
  not meet foreign rows (`PasteMigration.CompleteMigrationLosesNothingIff`): the second of two case
  variants is deleted after the first was copied. It can be restarted to its end exactly as long as
  every content file has its sidecar. A run that is not crashed and can remove every sidecar takes that
  away if and only if there is a content file it cannot remove
  (`PasteMigration.Migration.MigrateLocalPastesToMySQL`): from then on every run stops in its scan and
  changes nothing, although nothing is in its way any more (`OneStuckContentStrands`).
- During the admin migration logins that worked keep working, but the verdict for another spelling of
  the user name changes once the account is in MySQL (`AdminMigration.AuthenticateChangesIff`).
- The label update of the local store is two critical sections and writes back what the first one read.
  It changes only the label if and only if the sidecar is then still the one it read, but for the label
  (`LabelUpdates.LabelUpdateIsExact`); otherwise another thread wrote or removed the sidecar in between
  (`LostUpdateHasOtherWriter`). From every directory at rest with a paste its manager may relabel, every
  change of password or policy the manager may make can report success and then be undone
  (`EditCanBeLost`), and a deletion can leave a sidecar behind, so that the code is refused although
  there is no paste and no call at work (`DeletedSidecarCanComeBack`). If a new paste is created under
  the code in between, it comes under the password, tokens and policy of the deleted one
  (`NewPasteGetsOldSidecar`). "At most one view" is therefore stated for creations whose sidecar never
  said anything but "once".
- A View in MySQL that is not one-time can report success having served nothing: the row is read, a
  lockless sweep removes it, and the query for the content finds no chunk (`MySqlSweeps.EmptyView`).
  A change of password can report success on a paste a sweep has just removed (`EditOfNothing`).
- No stream of random bytes yields a password of more than 256 characters: its shuffle asks for an index
  that no byte can give (`Secrets.NoLongPassword`).
- An expiry in the first second of 1970 reads back from MySQL as "never"
  (`DataPolicy.ReadBackIsCoherent`).
- The limiter's key for an address and a user name together is the two joined by a colon. It tells pairs
  apart as long as addresses have no colon (`AuthLimiter.PairKeysTell`); two IPv6 addresses can share it
  (`PairKeysMeet`), so one client's failures can count for another's pair.
- Two tests of the source can never fire: the "newline not found" return of the preview split and the
  negative wait of the limiter. The proofs of `Preview.SplitPastePreview` and
  `AuthLimiter.AuthAttemptLimiter.RetryAfter` assert this at the place.

## Model

| member | source | states |
|---|---|---|
| Pastes.SameKeyIff | internal/mysql_store.go:42-108 | ids name one MySQL row exactly when they are equal but for the case of letters |
| Pastes.ValidIDIff | internal/secrets.go:108-130 | an id is one to ten characters, each a letter, a digit, `_` or `-` |
| Pastes.ReadBackKeeps | internal/mysql_store.go:776-788 | storing a record keeps every field; of its times it drops the fraction of a second, and an expiry in the first second of 1970 |
| Locks.LockManager.TakeRef | internal/locks.go:29-39 | taking a reference finds or creates the entry and raises the count of that key alone |
| Locks.LockManager.DropRef | internal/locks.go:47-60 | dropping one lowers the count of that key alone and deletes the entry with the last reference |
| Locks.LowerUndoesRaise | internal/locks.go:30-60 | dropping undoes taking on the counts of every key |
| LockProtocol.StepInv | internal/locks.go:29-61 | every step of every thread keeps: users of a key share the entry in the map, its count is their number, reader and writer state are those of the holders |
| LockProtocol.StepDefined | internal/locks.go:47-60 | no step unlocks a mutex that is not locked or follows an entry that does not exist |
| LockProtocol.WriterExcludes | internal/locks.go:41-45 | two holders of one key are both readers, although entries are deleted and re-created |
| LockProtocol.EntryHasUser | internal/locks.go:53-58 | an entry stays in the map only while a thread references it |
| LockProtocol.AcquiresIff | internal/locks.go:41-45 | a waiting thread can acquire its key exactly when nobody holds it, or it and all its holders are readers |
| LockProtocol.LockProgress | internal/locks.go:29-61 | whoever wants a lock, some user of that key can move, whether it is the waiting writers' or the waiting readers' turn |
| LockProtocol.TakeRefRaises | internal/locks.go:30-39 | the protocol changes the counts as the object does: on taking a reference |
| LockProtocol.DropRefLowers | internal/locks.go:53-58 | on dropping one |
| LockProtocol.MutexKeepsCounts | internal/locks.go:41-51 | acquiring and releasing the mutex leaves every count alone |
| LockProtocol.RunInv | internal/locks.go:29-61 | the invariant over whole runs |
| LockProtocol.LockSafety | internal/locks.go:29-61 | over every interleaving from the empty map: one shared entry per key in use, exact reference count, a writer is alone, and an empty map when nobody uses it |
| LocalStoreInv.BothInSection | internal/store_local.go:125-204 | two threads inside critical sections of one id are both Views before their upgrade |
| LocalStoreInv.Lift | internal/store_local.go:13-623 | a step that respects its own key under its lock keeps the invariant of all keys, threads and history |
| LocalStoreSteps.EffectKeeps | internal/store_local.go:13-623 | every file operation and decision keeps what its thread knows about the files of its id, including who may remove or change them |
| LocalStoreSteps.HolderSees | internal/store_local.go:13-623 | whoever is in a critical section sees a complete paste with its sidecar, or its own unfinished work |
| LocalStoreSteps.StepInv | internal/store_local.go:13-664 | every step of every operation keeps the whole invariant |
| LocalStoreTheorems.RunInv | internal/store_local.go:13-664 | and so does every run |
| LocalStoreTheorems.OnceIsFinal | internal/store_local.go:146-201 | after a one-time view has succeeded no View, Open or Create of that creation succeeds; whoever succeeds later on the same id does so on a newer creation |
| LocalStoreTheorems.OnceAtMostOnce | internal/store_local.go:146-201 | a creation that was always "once" is viewed successfully at most once, over every interleaving of all operations |
| LocalStoreTheorems.LooseByPolicy | internal/store_local.go:146-201 | and a creation stops counting as always "once" only in a step that puts a sidecar with another policy beside its content |
| LocalStoreTheorems.OnceCallbackIsAlone | internal/store_local.go:146-178 | while a one-time callback runs nobody else is in a section of that id, the metadata on disk is what passed expiry and password under the exclusive lock, and the content is the uploaded body |
| LocalStoreTheorems.AccessIsAuthorized | internal/store_local.go:89-178 | whoever opens or is being served a paste passed the password and expiry checks on the sidecar that is there now, and the content there is complete |
| LocalStoreTheorems.FailedCallbackLeavesPaste | internal/store_local.go:177-182 | a failing callback leaves the paste and the history as they are |
| LocalStoreTheorems.ContentHasSidecar | internal/store_local.go:13-87 | unless somebody holds the id exclusively, a content file has its sidecar and is the complete uploaded body |
| LocalStoreTheorems.RemovalIsAuthorized | internal/store_local.go:89-392 | a complete paste loses its content only to the delete token, the manage token, the consumption of a one-time view, the administrator, or after its expiry |
| LocalStoreTheorems.EditIsAuthorized | internal/store_local.go:441-623 | the sidecar of a complete paste changes only under its exclusive lock, with the manage token in it, and only in the field asked for; or by a label update, on which see LabelUpdates |
| LocalStoreTheorems.SuccessIsTrue | internal/store_local.go:13-623 | a call that reports success has done what it reports: exact body published, both files gone, or the new field in place |
| LocalStoreTheorems.CreationsNeverOverlap | internal/store_local.go:22-30 | no step replaces one creation of an id by another or changes a published body |
| LocalStoreTheorems.LosingCreateChangesNothing | internal/store_local.go:22-30 | a Create that has not won the exclusive creation changes no existing file |
| LocalStoreTheorems.NoSecondCreate | internal/store_local.go:13-87 | as long as a published paste stays, no Create of its id reports success, over whole runs |
| LocalStoreTheorems.Progress | internal/store_local.go:130-166 | no reachable state with an unfinished call is stuck, whosever turn it is at each mutex |
| LocalStoreTheorems.QuiescentStoreHoldsNoLock | internal/store_local.go:130-166 | when all calls have finished every acquisition has been released and the lock map is empty |
| LocalAlone.RejectedAlone | internal/store_local.go:206-214 | an invalid id or a blank token ends a call with an error and everything as it was |
| LocalAlone.CreateAlone | internal/store_local.go:13-87 | from every state with no lock in use a Create of a free code ends in success with the whole body, the record given and a sidecar of its id and size; with a failing body, or where the code is taken, in failure with the code as it was |
| LocalAlone.UnfinishedCreate | internal/store_local.go:36-81 | a Create whose body was copied but that fails afterwards removes the content and leaves the code as it was |
| LocalAlone.OpenAlone | internal/store_local.go:89-123 | an Open succeeds exactly on a paste that is there, in time and with the right password; an expired one is removed; everything else stays |
| LocalAlone.ViewAlone | internal/store_local.go:125-204 | a View succeeds exactly when the paste is there, in time, with the right password, and its callback does; the callback has the bytes of the file; afterwards a "once" paste is gone and any other as it was; an expired one is removed; every failure else leaves everything |
| LocalAlone.ViewsShare | internal/store_local.go:130-178 | two Views of a paste that is not "once" can be in their callbacks at the same time |
| LocalAlone.DeleteAlone | internal/store_local.go:206-242 | a Delete removes both files exactly with the delete token, and else changes nothing |
| LocalAlone.AdminDeleteAlone | internal/store_local.go:288-310 | the administrator removes whatever is there |
| LocalAlone.ManagedAlone | internal/store_local.go:244-286 | managing and deleting with the manage token: exactly with that token, on a paste in time |
| LocalAlone.SetPasswordAlone | internal/store_local.go:488-534 | with the manage token an unprotected paste gets the password, and no other field changes; a protected one is refused |
| LocalAlone.ClearPasswordAlone | internal/store_local.go:536-577 | with the manage token and the right password a paste loses its password, and no other field changes |
| LocalAlone.PolicyAlone | internal/store_local.go:579-623 | with the manage token a paste gets the policy and expiry given, and no other field changes |
| LocalAlone.LabelAlone | internal/store_local.go:441-454 | with the manage token a paste gets the label, and, nobody else about, no other field changes |
| LocalAlone.SweepAlone | internal/store_local.go:312-392 | delete-all removes every listed paste, clean-up exactly the listed ones past their expiry, a listing none |
| LocalProgress.RunLowers | internal/store_local.go:13-664 | every step of a thread inside a call brings it nearer to the end of the call, through upgrades, label updates and sweeps, and moves no other thread |
| LocalProgress.CallsEnd | internal/store_local.go:13-664 | from every reachable state only finitely many steps are possible without new calls, and a run that cannot go on, whosever turn it is, has finished every call |
| LabelUpdates.CarriedFrom | internal/store_local.go:441-454 | a record carried to the second section was carried before the step, or is the sidecar just read in the first, with the token checked and the new label |
| LabelUpdates.ReadBefore | internal/store_local.go:441-454 | so there is one earlier moment whose sidecar it is, and it has been carried unchanged since |
| LabelUpdates.LabelUpdateIsExact | internal/store_local.go:441-454 | in any run the write puts back the sidecar of that moment with the new label; it changes only the label if and only if the sidecar is still that one but for the label |
| LabelUpdates.LostUpdateHasOtherWriter | internal/store_local.go:441-454 | when it changes more, a step of another thread between the two sections had changed or removed the sidecar |
| LabelUpdates.OrphansComeFromLabels | internal/store_local.go:441-454 | where there was neither content nor sidecar only the write of a label update leaves a sidecar |
| LabelUpdates.EditCanBeLost | internal/store_local.go:441-623 | from every directory at rest and for every change of password or policy: the run in which it and a label update both report success and the change is undone |
| LabelUpdates.DeletedSidecarCanComeBack | internal/store_local.go:288-454 | the run in which a paste is deleted, its sidecar comes back, and a later Create of its code is refused with no call at work |
| LabelUpdates.NewPasteGetsOldSidecar | internal/store_local.go:13-454 | the run in which a paste is deleted, another published under its code, and the label update puts the old record over the new paste's sidecar, all calls reporting success |
| LockOrder.StepInv | internal/store_local.go:184-201 | steps of the store and of the mutex around the cached list keep: a thread in the hands of that mutex is outside any call or about to leave a View |
| LockOrder.KeyLockComesFirst | internal/store_local.go:184-201 | over every run, whoever holds or wants the cache mutex is not waiting for a key lock; this is how the steps are laid out, as in the source, and what Progress rests on |
| LockOrder.Progress | internal/store.go:391-421 | with both kinds of locks no reachable state with work left is stuck |
| MySqlOnce.EffectKeeps | internal/mysql_store.go:178-677 | every statement under a lock keeps what its thread knows about the row, also when lockless statements remove it meanwhile |
| MySqlOnce.StepInv | internal/mysql_store.go:178-677 | every step keeps the invariant when the ids in use differ by more than case, which AtMostOnceIffCaseDistinct shows to be necessary |
| MySqlOnce.RunInv | internal/mysql_store.go:178-677 | and so does every run |
| MySqlOnce.OnceIsFinal | internal/mysql_store.go:295-357 | after a one-time view has succeeded none of that creation succeeds again, later successes on the row key are of newer creations, and the successful one served the complete body |
| MySqlOnce.OnceAtMostOnce | internal/mysql_store.go:295-357 | a creation that was always "once" is viewed successfully at most once |
| MySqlOnce.LooseByPolicy | internal/mysql_store.go:295-357 | and a creation stops counting as always "once" only in a statement that gives its row another policy |
| MySqlOnce.OnceCallbackIsAlone | internal/mysql_store.go:315-342 | while a one-time callback runs nobody else is in a critical section of that row |
| MySqlOnce.ViewServesAllOrNothing | internal/mysql_store.go:328-342 | any successful View served the complete body of its creation, or, if not one-time, nothing |
| MySqlOnce.ContentQueryIsExact | internal/mysql_store.go:730-752 | it is nothing exactly when the row, read and checked before, is gone at the content query |
| MySqlOnce.RemovalIsAuthorized | internal/mysql_store.go:265-446 | a row disappears only in the two sweeping statements or under its lock to an entitled call: expired, right token, consumed one-time view, administrator |
| MySqlOnce.EditIsAuthorized | internal/mysql_store.go:504-677 | a row that stays keeps its body and creation; its columns change only by a label update, which sets the label alone, or under its exclusive lock with the manage token in the row: the password hash alone, or the policy and the expiry to the second alone |
| MySqlOnce.SuccessIsTrue | internal/mysql_store.go:178-677 | at the unlock of a call that reports success the row, if it is there, holds the body and record created, the new password hash, none, or the new policy and expiry; after a deletion it is not there |
| MySqlAlone.RejectedAlone | internal/mysql_store.go:359-368 | an invalid id or a blank token ends a call with an error and everything as it was |
| MySqlAlone.CreateAlone | internal/mysql_store.go:178-263 | with the lock of the id free, a Create of an id without a row puts one with the whole body and every field given, times to the second; otherwise, or when the transaction fails, nothing changes |
| MySqlAlone.OpenAlone | internal/mysql_store.go:265-293 | an Open succeeds exactly on a row that is in time and with the right password; an expired one is removed |
| MySqlAlone.ViewAlone | internal/mysql_store.go:295-357 | a View succeeds exactly when the row is there, in time, with the right password, and its callback does; the callback has the body of the row; afterwards a "once" row is gone and any other as it was |
| MySqlAlone.ViewsShare | internal/mysql_store.go:295-342 | two Views of a paste that is not "once" can be in their callbacks at the same time |
| MySqlAlone.DeleteAlone | internal/mysql_store.go:359-382 | a Delete removes the row exactly with the delete token |
| MySqlAlone.AdminDeleteAlone | internal/mysql_store.go:414-423 | the administrator removes the row, and is told whether there was one |
| MySqlAlone.ManagedAlone | internal/mysql_store.go:384-412 | managing and deleting with the manage token: exactly with that token, on a row in time |
| MySqlAlone.PasswordAlone | internal/mysql_store.go:546-629 | setting and clearing the password: exactly when allowed, and no other column changes |
| MySqlAlone.PolicyAlone | internal/mysql_store.go:631-677 | setting the policy changes it and the expiry, stored to the second, and no other column |
| MySqlAlone.LabelAlone | internal/mysql_store.go:504-514 | setting the label changes no other column |
| MySqlAlone.SweepAlone | internal/mysql_store.go:425-446 | delete-all empties the table; clean-up removes exactly the rows whose expiry in whole seconds is before now |
| MySqlCaseVariants.ReachCallback | internal/mysql_store.go:295-342 | from any state with the lock of its id free a View of an open one-time paste can run into its callback, whatever other threads are doing |
| MySqlCaseVariants.CaseVariantsOverlap | internal/mysql_store.go:295-342 | the run in which two spellings of one id run two callbacks on one one-time row at once |
| MySqlCaseVariants.SecondViewWaits | internal/mysql_store.go:342-354 | from there: the first View consumes the row and returns, a Create puts a new one, and the second View is about to delete that, not entitled to it |
| MySqlCaseVariants.SecondViewSucceeds | internal/mysql_store.go:349-356 | and it does, reporting success: one creation viewed twice, and a paste nobody viewed is gone |
| MySqlCaseVariants.EditWaits | internal/mysql_store.go:546-589 | the run in which a password change checked against one paste is about to lock another |
| MySqlCaseVariants.ExclusiveIffCaseDistinct | internal/mysql_store.go:295-357 | one-time callbacks exclude each other in every run if and only if no two ids in use differ only in case |
| MySqlCaseVariants.AtMostOnceIffCaseDistinct | internal/mysql_store.go:295-357 | under the same condition exactly, one-time views are final in every run, happen at most once per creation, and the invariant holds |
| MySqlCaseVariants.RemovalIffCaseDistinct | internal/mysql_store.go:754-769 | and rows are removed only by calls entitled to it |
| MySqlCaseVariants.EditIffCaseDistinct | internal/mysql_store.go:504-677 | and changed only by calls entitled to it |
| MySqlSweeps.EmptyView | internal/mysql_store.go:295-357 | from every table at rest with a public paste: the run in which a View of it reports success having served nothing |
| MySqlSweeps.GoneMeanwhile | internal/mysql_store.go:546-769 | when a row has been swept under its lock a deletion and the consumption of a one-time paste report failure, a change of columns reports success and changes nothing |
| MySqlSweeps.EditOfNothing | internal/mysql_store.go:546-589 | from every table at rest with an unprotected paste, the run in which a change of password reports success on a paste that is gone |
| MySqlProgress.Progress | internal/mysql_store.go:178-677 | no reachable state with an unfinished call is stuck, whichever ids are in use and whosever turn it is |
| MySqlProgress.QuiescentStoreHoldsNoLock | internal/mysql_store.go:178-677 | when all calls have finished the lock map is empty |
| MySqlProgress.CallsEnd | internal/mysql_store.go:178-677 | from every reachable state only finitely many steps are possible without new calls, and a run that cannot go on has finished every call and freed every lock |
| CacheSpec.CacheWorks | internal/store.go:391-415 | a list stored under the generation it was read in is found until its time is up; one of another generation is not stored; after an invalidation nothing is found, and a list read before it is stored no more |
| PasteListCache.CloneAdminPasteItems | internal/store.go:423-425 | the copy has the same items and shares no storage |
| PasteListCache.ListCache.CachedPasteList | internal/store.go:391-398 | a hit is exactly an unexpired cache, returned as a copy that cannot reach the cache |
| PasteListCache.ListCache.CachePasteList | internal/store.go:400-407 | a list is stored, as a copy, only if no invalidation came since its generation was read |
| PasteListCache.ListCache.InvalidatePasteList | internal/store.go:409-415 | invalidation empties the cache and starts a new generation |
| PasteListCache.ListCache.PasteListGeneration | internal/store.go:417-421 | reading the generation |
| ListCacheProtocol.ReadEntryInv | internal/store_local.go:400-438 | a scan that reads sidecars one at a time, while they change, has for each id an entry no older than its start |
| ListCacheProtocol.FinishInv | internal/store.go:305-317 | the generation test lets only lists at least as new as the latest invalidation into the cache |
| ListCacheProtocol.StepInv | internal/store.go:299-317 | every step of callers and mutators keeps the invariant |
| ListCacheProtocol.RunInv | internal/store.go:299-317 | and so does every run |
| ListCacheProtocol.ListsAreFresh | internal/store.go:299-317 | every list returned, hit or miss, reflects every mutation whose invalidation ran before the call began, and a cached one was stored less than the TTL ago |
| ListCacheProtocol.ListAlone | internal/store.go:299-317 | a call that misses and is not disturbed lists exactly the directory, and for five seconds the cache has that list |
| ListCacheProtocol.HitAlone | internal/store.go:299-303 | a call that hits answers with the cached list |
| Utf8.DecodeInvertsEncode | cmd/server/handler_paste.go:205-215 | decoding gives back every Unicode scalar value from its encoding in section 3 of RFC 3629, whatever follows |
| Utf8.EncodeInvertsDecode | cmd/server/handler_paste.go:205-215 | and accepts only such encodings |
| Utf8.ErrorIsSizeOne | cmd/server/handler_paste.go:210-213 | error with size one is exactly "no character starts here", unlike an encoded U+FFFD |
| Utf8.FullRuneDecides | cmd/server/handler_paste.go:206-208 | what decodes from a full cut decodes the same from the uncut bytes |
| Utf8.PartialRuneIsShort | cmd/server/handler_paste.go:206-208 | a cut that is not full has at most three bytes |
| Utf8.PartialRuneCanGrow | cmd/server/handler_paste.go:206-208 | a non-empty cut that is not full could still become a character |
| Utf8.RepairIsValid | cmd/server/handler_paste.go:205-215 | repaired bytes are valid UTF-8 |
| Utf8.RepairKeepsValid | cmd/server/handler_paste.go:205-215 | valid text is left alone |
| Utf8.RepairKeepsNewlines | cmd/server/handler_paste.go:205-215 | repair neither moves, makes nor removes newlines |
| Utf8.RepairOfChar | cmd/server/handler_paste.go:205-215 | in front of any bytes an encoded character stays and repair goes on behind it |
| Utf8.RepairOfJunk | cmd/server/handler_paste.go:205-215 | a byte at which no encoded character begins becomes `?` and repair goes on with the next; with RepairOfChar this is all of repair |
| Streams.Source.Read | cmd/server/handler_paste.go:174-195 | the reader contract everything is proved against: pieces of any size, finite stalls, EOF or error with or after the last bytes |
| Preview.CountsLines | cmd/server/handler_paste.go:230-240 | a line and its newline count one more than what follows; a last line without one counts if it is not empty |
| Preview.SplitPastePreview | cmd/server/handler_paste.go:242-265 | the split conserves the content; truncated, the rest begins with the newline that ends line maxLines |
| Preview.SplitIsUnique | cmd/server/handler_paste.go:242-265 | that describes one split only |
| Preview.TruncatedLineCount | cmd/server/handler_paste.go:230-265 | a truncated split shows maxLines lines, or one fewer exactly when the last is empty |
| Preview.PrefixHasFewerLines | cmd/server/handler_paste.go:230-240 | a prefix has at most as many lines as the whole |
| Preview.RepairInPlace | cmd/server/handler_paste.go:203-216 | the in-place loop computes the repair, stopping before a character the cut left incomplete |
| Preview.CutCommutesWithRepair | cmd/server/handler_paste.go:197-216 | repairing a cut gives a prefix of the repair of the whole, at most three bytes short of the cut |
| Preview.CutLosesPartialRune | cmd/server/handler_paste.go:197-216 | what is kept of a cut is its repair; what is lost is nothing or the incomplete beginning of a character |
| Preview.ReadSample | cmd/server/handler_paste.go:170-195 | for every slicing: the leading bytes, the byte and newline totals and the last byte of the stream |
| Preview.ReadPastePreview | cmd/server/handler_paste.go:163-228 | the whole function, against a relation on the concatenated bytes; read errors give nothing |
| Preview.PreviewGuarantees | cmd/server/handler_paste.go:163-240 | the preview is valid UTF-8 within both budgets and a prefix of the repaired content; it is called truncated exactly when it is not all of it, which is exactly when the content is over a budget; the number of lines left out is exact, but for a cut inside the last line, which counts one |
| Preview.PreviewIsMaximal | cmd/server/handler_paste.go:197-227 | a truncated preview ends just before the newline of line maxLines, or at the byte budget, or before it where what is left of the budget is the beginning of a character only |
| Preview.PreviewIsUnique | cmd/server/handler_paste.go:163-228 | the result depends on the bytes only, not on how the reader sliced them |
| Preview.RepairKeepsLineCount | cmd/server/handler_paste.go:205-240 | repair keeps the number of lines |
| Chunks.SplitExact | internal/mysql_store.go:825-861 | rows join to the content, none is empty, all but the last are exactly 1048576 bytes long |
| Chunks.FullRowsThenRest | internal/mysql_store.go:825-861 | full rows and a shorter last one are that cutting, whatever the writes were |
| Chunks.ChunkWriter.Write | internal/mysql_store.go:825-844 | accepts exactly the bytes given, flushing full rows only; on a failed flush keeps a full buffer and an accepted prefix, and terminates when called again |
| Chunks.ChunkWriter.Flush | internal/mysql_store.go:846-861 | one row under the next index, or nothing changed; compressed size is the total of the rows |
| Chunks.CountingReader.Read | internal/mysql_store.go:795-799 | counts exactly what passes through |
| Chunks.WriteMany | internal/mysql_store.go:825-844 | any sequence of Writes, going on after failed ones: each takes in a prefix of what it is given, all of it on success, and only full rows are flushed |
| Chunks.WriteThenFlush | internal/mysql_store.go:825-861 | after any such sequence a successful Flush leaves the one cutting of everything taken in |
| Chunks.StoreContent | internal/mysql_store.go:212-245 | success means the source ended well, the rows are the cutting of the encoder's output, however it was sliced, and both sizes are right |
| Chunks.ChunkReader.Read | internal/mysql_store.go:879-902 | delivers the rows in order, skips empty ones, makes progress until EOF, error or close |
| Chunks.ReadToEnd | internal/mysql_store.go:879-902 | with any buffer sizes the rows come out joined and end well or not as the query did |
| Chunks.AvailableUpTo | internal/mysql_store.go:879-902 | the rows before the first that fails to scan are delivered; the end is good exactly when none fails and the query ends well |
| Chunks.RoundTrip | internal/mysql_store.go:825-902 | any stream in any pieces, stored without error, reads back as the encoder's output and EOF, so a decoder that undoes the encoder gives the content |
| PasteMigration.Migration.ScanLocalPasteEntries | internal/admin_mysql_store.go:353-385 | lists every content file once with its metadata, or fails exactly when one has no sidecar |
| PasteMigration.Migration.RemoveLocalPaste | internal/admin_mysql_store.go:387-400 | both files are attempted; afterwards each is there exactly if it could not be removed |
| PasteMigration.Migration.MoveOne | internal/admin_mysql_store.go:324-343 | copy, remove content, remove sidecar: stopped or failing anywhere, the invariant holds |
| PasteMigration.MoveKeeps | internal/admin_mysql_store.go:324-400 | each state in which moving a paste can stop is consistent, also with the sidecar gone and the content not |
| PasteMigration.Migration.MoveAll | internal/admin_mysql_store.go:324-343 | completes only if nothing was in the way of any paste; fails only on one in the way, which is stranded if its sidecar was not |
| PasteMigration.Migration.MigrateLocalPastesToMySQL | internal/admin_mysql_store.go:310-346 | one run, crashing or failing anywhere: nothing overwritten, nothing in neither place; not crashed and with nothing in its way it completes if and only if every content file has its sidecar; not crashed and with no sidecar in its way it takes that away if and only if some content file cannot be removed; without it, or once marked, a run changes nothing |
| PasteMigration.SeparateIdsLoseNothing | internal/admin_mysql_store.go:310-346 | with ids distinct without regard to case every paste is at every moment in the directory, or in MySQL with the bytes of its file and every field of its sidecar, times to the second |
| PasteMigration.CompleteMigrationLosesNothingIff | internal/admin_mysql_store.go:310-346 | a completed migration lost nothing if and only if the ids were separate at the start |
| PasteMigration.EveryFieldArrives | internal/admin_mysql_store.go:310-346 | after a completed migration of separate ids every paste has its row with its bytes, password hash, tokens, label, filename, policy, content type, size, and times to the second |
| PasteMigration.RestartUntilDone | internal/admin_mysql_store.go:310-346 | any number of crashed or failed runs and a last one: it completes, with no content file left, if and only if on the disk it finds every content file has its sidecar; if the first run was not crashed and could remove every sidecar, if and only if it could remove every content file too |
| PasteMigration.OneStuckContentStrands | internal/admin_mysql_store.go:387-400 | one content file that cannot be removed once, its sidecar can: no later run ever completes |
| AdminMigration.IsMarkerIff | internal/admin_mysql_store.go:258-263 | a key is a marker exactly if it begins with "migration." in any case; a key without a dot, like that of any setting of the program, is none |
| AdminMigration.UpsertKeepsCopies | internal/admin_mysql_store.go:225-245 | copying a row, again after a crash too, leaves copies only: its value is there, the key first inserted stays, no other row changes |
| AdminMigration.MovedExactlyIff | internal/admin_mysql_store.go:207-308 | a moved table arrived exactly if and only if its keys are distinct under the collation |
| AdminMigration.LowerCaseKeysAreDistinct | internal/admin_mysql_store.go:207-308 | which lower-case keys always are when case is all the collation ignores |
| AdminMigration.CopyRows | internal/admin_mysql_store.go:225-245 | stopped after any row, MySQL holds copies only; finished, all of them |
| AdminMigration.Migration.MigrateAccount | internal/admin_mysql_store.go:155-194 | the account moves, or the run stops in a consistent state |
| AdminMigration.Migration.MigrateSessions | internal/admin_mysql_store.go:207-256 | the same for sessions |
| AdminMigration.Migration.MigrateSettings | internal/admin_mysql_store.go:258-308 | and for settings, leaving only markers |
| AdminMigration.Migration.MigrateSQLiteAdminAccountsToMySQL | internal/admin_mysql_store.go:146-205 | one run stopped anywhere keeps consistency, completes with enough statements, and changes nothing once marked |
| AdminMigration.AdminExistsIsStable | internal/admin_store.go:59-71 | at every moment of any number of runs an admin exists exactly if there was one at the start |
| AdminMigration.AuthenticatesIff | internal/admin_store.go:233-248 | at every moment a login is let in exactly with the right password and the name of the account, or once it is copied any name the collation takes for it |
| AdminMigration.AuthenticateChangesIff | internal/admin_store.go:233-248 | logins that worked keep working; a verdict changes if and only if the account was copied and the name is another spelling the collation accepts |
| AdminMigration.NothingInNeither | internal/admin_mysql_store.go:207-308 | no session or setting is ever in neither database, and copies are exact where keys are distinct |
| AdminMigration.SettingArrives | internal/admin_store.go:339-372 | once the migration is recorded a setting of the program is read from MySQL as it was, if keys are distinct under the collation |
| AdminMigration.RestartUntilDone | internal/admin_mysql_store.go:146-308 | at the end MySQL has the account and, exactly when keys are distinct, the original rows; SQLite has only markers |
| AuthLimiter.Compact | cmd/server/auth.go:176-183 | the in-place compaction keeps exactly the attempts inside the window, in order |
| AuthLimiter.AuthAttemptLimiter.PruneLocked | cmd/server/auth.go:169-191 | drops a key's old attempts and the key with its last one |
| AuthLimiter.AuthAttemptLimiter.PruneAllLocked | cmd/server/auth.go:193-200 | drops exactly the keys whose latest attempt is old |
| AuthLimiter.StaleIffNothingSurvives | cmd/server/auth.go:193-200 | on sorted attempts those are the keys a full prune would empty |
| AuthLimiter.AuthAttemptLimiter.EvictOldestLocked | cmd/server/auth.go:202-214 | evicts one key with minimal last-seen time |
| AuthLimiter.AuthAttemptLimiter.RetryAfter | cmd/server/auth.go:95-109 | blocked with a strictly positive wait, or free with none; forgets only what has left the window |
| AuthLimiter.AuthAttemptLimiter.RecordFailure | cmd/server/auth.go:111-123 | adds one attempt, making room first when the map is full; the map never exceeds its cap |
| AuthLimiter.AuthAttemptLimiter.RetryAfterAny | cmd/server/auth.go:125-143 | one check per non-blank key; blocked if and only if one of them is, with the shortest of their waits |
| AuthLimiter.AuthAttemptLimiter.RecordFailureMany | cmd/server/auth.go:145-152 | one failure per non-blank key, in order; if the keys were free when checked, then or earlier, each is free when its failure is recorded and none exceeds the limit |
| AuthLimiter.AuthAttemptLimiter.ClearMany | cmd/server/auth.go:154-161 | forgets the non-blank keys and no other |
| AuthLimiter.AuthAttemptLimiter.Login | cmd/server/admin_auth.go:116-145 | one login: refused exactly when the key for its address, its name or both is blocked, with the shortest of their waits, each checked once; otherwise one failure of each is recorded, on a free key, at a later clock reading, or all three are forgotten |
| AuthLimiter.AuthAttemptLimiter.Clear | cmd/server/auth.go:163-167 | forgets one key and no other |
| AuthLimiter.LoginKeysTell | cmd/server/admin_auth.go:113-118 | logins share a key exactly when they have the address, the name but for case and space, or address, colon and name in common |
| AuthLimiter.PairKeysTell | cmd/server/admin_auth.go:118 | the third key tells pairs apart as long as addresses have no colon |
| AuthLimiter.PairKeysMeet | cmd/server/admin_auth.go:118 | and not for IPv6 addresses: two addresses and two names with one third key |
| AuthLimiter.OperationRefines | cmd/server/auth.go:95-214 | each operation refines the same operation on a plain log of failures that is never pruned |
| AuthLimiter.RunRefines | cmd/server/auth.go:95-214 | over whole runs from the empty limiter |
| AuthLimiter.LastSeenIs | cmd/server/auth.go:111-191 | a key that is kept was last seen at its latest check or failure; a check touches no other key |
| AuthLimiter.EvictsOldestWhenFull | cmd/server/auth.go:111-123 | a key makes room only for another, only when ten thousand have failed inside the window, and is one of those not seen for longest |
| AuthLimiter.FailuresAreLogged | cmd/server/auth.go:95-214 | the log holds exactly the failures since the key was last forgotten or evicted |
| AuthLimiter.BlocksExactly | cmd/server/auth.go:95-109 | over every run from the empty limiter a key is blocked exactly when its failures since it was last forgotten or evicted and inside the window number at least the limit |
| AuthLimiter.BlockedUntil | cmd/server/auth.go:95-109 | a key is blocked at a later time if and only if its limit-th latest attempt is still inside the window |
| AuthLimiter.FreeLater | cmd/server/admin_auth.go:119-137 | a key that is free stays free until another failure is recorded |
| AuthLimiter.WaitIsExact | cmd/server/auth.go:95-109 | with at most limit attempts kept the announced wait is exact: blocked before, free from then on |
| AuthLimiter.RunKeepsLimit | cmd/server/admin_auth.go:119-145 | over every run that records failures of free keys only, no key ever has more than limit attempts |
| AuthLimiter.WaitExactOverRuns | cmd/server/admin_auth.go:119-145 | so after every such run a blocked wait is positive and exact |
| AuthLimiter.RecordKeepsLimit | cmd/server/auth.go:111-123 | recording a failure of a free key never leaves more than limit attempts, whoever had to make room |
| AuthLimiter.RecordKeepsFree | cmd/server/admin_auth.go:119-145 | recording for one key never blocks another |
| Upload.UploadLimitReader.Read | cmd/server/upload_validation.go:15-35 | each read delivers the next part of the limited stream; only a byte that exists past the limit is "too large" |
| Upload.ReadSample | cmd/server/upload_validation.go:37-45 | the sample is the beginning of the limited stream, and errors before its end surface |
| Upload.PrepareTextUploadReader | cmd/server/upload_validation.go:37-45 | sample and rest together are the limited stream; too large surfaces here exactly when the sample limit passes the cap and the body does too |
| Upload.Upload | cmd/server/upload_validation.go:15-45 | for every slicing: a body within the cap comes out unchanged and ends as the source does, a longer one gives its first maxBytes bytes and then the size error; rejected before that only for a body too large or a failing source |
| Secrets.RandomIndexIsFair | internal/secrets.go:228-245 | every index is drawn by the same number of bytes, 256 / max of them |
| Secrets.FirstAcceptedIsFirst | internal/secrets.go:228-245 | of a stream the first byte below the limit is taken and what follows it is left |
| Secrets.Random.RandomIndex | internal/secrets.go:228-245 | bytes from 256 - 256 % max on are thrown away; the first other byte b gives b % max, and the stream goes on behind it; it fails exactly when there is none |
| Secrets.Random.RandomChar | internal/secrets.go:205-212 | the character of the alphabet that the first acceptable byte selects |
| Secrets.Random.ShuffleBytes | internal/secrets.go:247-258 | the array becomes the shuffle of its old contents by the choices in the stream; it fails exactly when the stream runs out, and then has still only permuted |
| Secrets.SwapsPermute | internal/secrets.go:247-258 | any choices permute |
| Secrets.ShuffleInjective | internal/secrets.go:247-258 | on distinct elements different choices give different orders |
| Secrets.ShuffleReaches | internal/secrets.go:247-258 | and every order is reached |
| Secrets.Random.GeneratePassword | internal/secrets.go:153-203 | exactly the password the stream determines, and none exactly when it runs out; the asked length (at least eight if less than four is asked), a character of each class, none outside them |
| Secrets.EnoughBytes | internal/secrets.go:228-245 | as many bytes below 129 as draws are enough, whatever comes between them |
| Secrets.PasswordIfEnough | internal/secrets.go:153-203 | so every stream with twice as many of them as characters gives a password of up to 256 characters |
| Secrets.EveryPassword | internal/secrets.go:153-203 | every string of 4 to 256 characters of the alphabets with one of each class is the password of some stream |
| Secrets.NoLongPassword | internal/secrets.go:153-258 | and no stream gives a longer one |
| Text.TrimIgnoresSpace | internal/data_policy.go:17 | space around a text does not count, whatever the text |
| DataPolicy.NumberOfDecimal | internal/data_policy.go:41-44 | a decimal numeral is read as its number |
| DataPolicy.DigitsAreNumeral | internal/data_policy.go:35-44 | and a string of digits without needless zeros is the numeral of what is read |
| DataPolicy.CustomDurations | internal/data_policy.go:46-73 | n minutes, hours or days are accepted up to 43200, 720 or 30, as that many nanoseconds |
| DataPolicy.OtherUnits | internal/data_policy.go:65-67 | no other letter is a unit |
| DataPolicy.CaseAndSpaceDoNotCount | internal/data_policy.go:16-20 | case and surrounding space do not change what a policy means |
| DataPolicy.NamesAreAccepted | internal/data_policy.go:16-25 | "temporary", "permanent" and "once" are accepted in any case with any space, and nothing means "temporary" |
| DataPolicy.CustomPolicies | internal/data_policy.go:33-73 | an accepted custom policy is a whole number of minutes, hours or days in (0, 30 days], without leaving int64 |
| DataPolicy.CustomIff | internal/data_policy.go:33-73 | and every such number is accepted |
| DataPolicy.ReparseIsStable | internal/data_policy.go:16-92 | parsing the name of a parsed policy gives the same policy |
| DataPolicy.ExpiryIsTimely | internal/data_policy.go:94-103 | no expiry exactly for "permanent"; otherwise after the policy's own duration or the default, later than now |
| LocalRetention.SidecarsStayCoherent | internal/store_local.go:13-623 | over every interleaving of all operations with parsed policies, label updates that bring back records of earlier pastes included, every sidecar is "permanent" if and only if it has no expiry |
| MySqlRetention.RowsStayCoherent | internal/mysql_store.go:178-677 | the same of every row, for policies that do not expire in the first second of 1970 |
| DataPolicy.ReadBackIsCoherent | internal/mysql_store.go:776-788 | reading back from MySQL keeps that, except exactly for an expiry in the first second of 1970 |
| DataPolicy.CleanupImpliesExpired | internal/mysql_store.go:439-446 | cleaned up implies expired; a second past its expiry a paste is cleaned up; expired implies expired as stored, except exactly for an expiry in the first second of 1970; as stored is less than one second early |
| DataPolicy.PermanentIsForever | internal/secrets.go:96-106 | a permanent paste is never expired or cleaned up, as stored or not |

## Left out

- HTTP handlers, templates, translations, cookies, QR codes, webhooks, release checks and shutdown: I/O and presentation.
- SQL engines, JSON, zstd and SHA-256: statements and transactions are atomic, metadata is a record, compression is any function to a sequence of writes and one that undoes it, a hash is a value the caller presents.
- Failing file operations in the local store: its removals and writes succeed. Other errors of a paste migration count as a crash at that point.
- Other processes working on the directory or the database while a migration runs.
- The store operations are steps over values, not methods of one object, because they interleave; the in-place form of the store's own fields is modelled where one object owns them (locks, list cache, limiter, chunk writer and reader, migrations).
- LocalStoreTheorems.OnceAtMostOnce: says nothing about creations whose sidecar once said something else than "once", since a label update may bring such a sidecar back.
- LocalStoreTheorems.EditIsAuthorized: of a label update says only that id and label are the ones asked for; the rest of the record it writes back is the matter of `LabelUpdates.LabelUpdateIsExact`.
- LocalAlone.ViewAlone: the clock stands still during the call; its upgrade is a second section at the same moment. The same holds of the other lemmas of `LocalAlone` and `MySqlAlone`.
- ListCacheProtocol.ListsAreFresh: for runs of fewer than 2^64 steps, the period of the generation counter, and for mutations whose invalidation has run; expiry found by a reader and failed operations do not invalidate. The order of a list is dropped.
- MySqlOnce.StepInv: for ids that differ by more than case, as are the results of `MySqlOnce` drawn from it; for OnceIsFinal, OnceAtMostOnce, OnceCallbackIsAlone, RunInv, RemovalIsAuthorized and EditIsAuthorized the lemmas of `MySqlCaseVariants` show that the condition is exact.
- AuthLimiter.RunRefines: for clocks that do not go back, as the limiter is given.
- AuthLimiter.AuthAttemptLimiter.RecordFailure: for keys that are not blank, which all callers guarantee; the eviction uses the empty key for "none yet".
- AuthLimiter.AuthAttemptLimiter.Login: one login at a time; concurrent logins may check before either records.
- Secrets.Random.RandomIndex: the random bytes are a finite stream, and running out of them is the failure of the source of randomness; for a `max` above 256 no byte is ever accepted, in the source as here.
- Password rules of the setters (`validNewPassword`), label normalisation and the check of admin user names: easy case splits before the modelled steps.
- The retry loop that draws random ids: a retry is a new creation under another id. Clone is an Open followed by a Create.
- Times are unbounded integers; only the policy arithmetic is bounded to int64. Trimming and case are those of ASCII.
- `looksLikeText`, blocked extensions and content types, admin list filters and pages, syntax tables.
