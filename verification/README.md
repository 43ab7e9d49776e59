# GoProx: a verified model of the gateway's core

GoProx is a multi-user reverse-proxy gateway: each user has one configuration file that lists
backend services, and the gateway routes requests to them by path, by virtual host, and by
the cookies and Referer a page leaves behind.  This project models the parts of it where the
logic is hard (locking, configuration, routing, rewriting, limiting, sessions) and proves what
they promise, for all inputs, all runs and all interleavings.

Protocols between processes are transition systems whose steps are single system calls.  Code
that updates state in place is a class or a method with loops, proved against a specification
function; the properties are then lemmas about that function.  Map iteration order, clock
readings, the network's answers, MACs and cookie names are parameters or free choices, so every
result holds for all of them.

## What the results say

- Configuration lock (`config_lock.dfy`).  If no lock is ever judged stale, at most one process
  is in the critical section and a release removes only its own file.  With reclaiming this
  still holds if each lock judged stale belongs to a dead process and only one process is
  between the verdict and the removal; a pending removal is safe if and only if the file it
  removes was created by a dead process.  Two traces show the code does not meet that condition
  by itself: two reclaimers of one dead lock, and one reclaimer whose owner releases and exits
  between the read and the liveness probe.  A crashed owner does not block for ever: a lock
  can be taken over exactly when it is two minutes old or records a dead process
  (`lock_reclaim.dfy`).
- Concurrent edits (`serial_edits.dfy`).  Any interleaving of edits, crashes, failed writes and
  lock-free readers leaves the file as the logged edits would have made it one after the
  other, in lock order, and each reader sees exactly one committed version.  An edit that finds
  the lock free can always run to its end and leaves the lock free (`edit_progress.dfy`).
- One edit (`user_config.dfy`, `config_edits.dfy`, `config_invariant.dfy`, `config_file.dfy`).
  Every sequence of edits, failed ones included, keeps the file's invariant; saving and loading
  is the identity exactly on canonical services; account and service edits leave each other's
  part alone and commute.  When an edit is accepted is stated without the code's own functions,
  and over every run no backend gets into the file unchecked (`config_checks.dfy`).
- Login cache (`login_cache.dfy`).  Lookups are linearizable for a history of the file if and
  only if, between two versions with equal time and size, nothing loads differently from the
  later one; distinct times and sizes are enough.
- Failure limiter (`limiter.dfy`, `limiter_runs.dfy`).  In-place compaction and eviction on
  arrays and maps; every verdict "blocked" is one the unbounded limiter would give; the
  limiter remembers exactly the window if and only if no more than `capacity` keys are live; a
  blocked key cannot be flushed out by other keys, however many of them come, while fewer than
  `capacity` are held blocked.  The calls of the class are the steps of these runs
  (`limiter_driver.dfy`),
  and what they answer is stated in terms of the calls alone (`limiter_answers.dfy`).
- Routing (`routing.dfy`, `decisions.dfy`, `decision_table.dfy`, `serving.dfy`, `host_index.dfy`,
  `host_registry.dfy`, `route_cookies.dfy`, `visits.dfy`, `locations.dfy`).  Every forward goes
  to a service of the session's own user and keeps the path; the handlers answer as a table of
  preferences says; redirects stay on the gateway; a request without page
  or Referer goes to the service visited last.  Of the configurations a stranger learns whether
  a Host is claimed exactly once, and nothing else.  A user learns of others through who claims
  a Host and through one corner of the legacy paths (below); the condition is exact for Hosts
  and, of the corner, for direct proxy paths.
- Rewriting (`url_paths.dfy`, `redirects.dfy`, `html_base.dfy`).  Following a rewritten redirect
  leads back to the same service exactly when no service nested in it claims the path, and to
  the same backend path exactly when there is no backend path, or that path has no final slash,
  lies in the backend path's directory and is not that directory standing in for a file.
- Tokens and sessions (`base64url.dfy`, `tokens.dfy`, `sessions.dfy`, `activity.dfy`).  Exactly
  which tokens are accepted is stated on what they decode to.  Sessions
  last exactly while refresh checks are less than a quarter of the lifetime apart; which
  requests run the check is stated exactly too.
- Layout (`layout.dfy`), names and paths (`hostnames.dfy`, `service_paths.dfy`, `text.dfy`), with
  the valid ones and their spellings written out (`hostname_rules.dfy`, `slugs.dfy`).

Where the code does less than its comments or tests promise, the code is modelled and the exact
condition is proved:

- A stale-lock reclaim can remove a live lock (`TwoReclaimersBreak`, `ExitedOwnerBreaks`).
- "Hide other users' services" fails for a user with a service whose own path starts with
  another user's name: a legacy match is then served or hidden depending on that other user
  (`HiddenIffClear`).
- "Hide the existence of another user's vhost" fails on a Host: a session gets "not found" where
  the path would have given something else, or loses its own virtual host to a second claim
  (`HiddenIffUntold`), and a stranger is sent to the main login (`StrangersSeeOnlyHosts`).
- A final slash does not survive a backend path: the usual redirect from a directory to itself
  with a slash is then endless (`RedirectClosure`, `DirectoryRedirectLoops`).
- An escaped root request is sent "back to the correct proxy URL" only if the route cookie does
  not climb out of the user's paths (`EscapeStaysHomeIff`, `EscapeReachesOther`).
- A session refresh that straddles a password change carries the session over to the new
  revision (`ChangeRevokesIffNoStraddle`).
- Requests a quarter of the lifetime apart, or more, can outlive a session
  (`SessionsLastIffBelowQuarter`), and requests answered without a refresh check do not count as
  activity at all (`SilentWritesExpire`).
- The dashboard script throws for a category named like an inherited object property, such as
  "constructor" (`GroupServices`).
- A hand-written negative bandwidth limit does not survive a save (`LoadedIsCanonical`), and a
  new service is no longer last once an order is the largest 64-bit integer (`AddedIsLast`).
- The chosen route depends on Go's map iteration exactly when two routes are the longest that
  cover the path and the recent route is neither (`OrderFreeIffSettled`,
  `ChosenIsOrderFreeIff`); it takes a route that ends in two slashes (`DoubleSlashDepends`), and
  the gateway itself never writes one.
- A service at "/" opened under the legacy prefix loses its redirects (`LegacyRootIsLost`).
- A service at "/" owns every canonical path of its user but does not claim bare paths
  (`BareAgreesWithCanonical`).

## Model

| member | source | states |
|---|---|---|
| `ConfigLock.HarmlessRunsAreSafe` | internal/config/filelock.go:29-81 | in every run in which no reclaim removes a live process's file, at most one process is in the critical section, the path names the inode its holder created, and whoever is about to remove the lock on release removes its own |
| `ConfigLock.NoStaleVerdictIsSafe` | internal/config/filelock.go:29-62 | mutual exclusion in every interleaving, with crashes anywhere, if no lock is judged stale |
| `ConfigLock.SoundSingleReclaimIsSafe` | internal/config/filelock.go:53-56 | mutual exclusion with stale reclaim, if stale owners are dead when judged and one process at a time is between check and removal |
| `ConfigLock.ReclaimSafeIffOwnerDead` | internal/config/filelock.go:53-56 | a pending reclaim keeps every harmless continuation safe if and only if the file it would remove is gone or was created by a dead process |
| `ConfigLock.HarmfulReclaimBreaks` | internal/config/filelock.go:53-56 | from any reachable state, removing a live process's lock can put two processes in the critical section without any further reclaim and without reusing an inode anybody has open |
| `ConfigLock.TwoReclaimersBreak` | internal/config/filelock.go:53-54 | sound verdicts alone do not suffice: two reclaimers of the same dead lock end up with two holders |
| `ConfigLock.ExitedOwnerBreaks` | internal/config/filelock.go:64-75 | one reclaimer does not suffice either: the owner it read about releases and exits before the probe |
| `LockReclaim.TakenOverIffStale` | internal/config/filelock.go:64-81 | while the clock stands still, a waiting process can make the lock file go by its own steps if and only if the file is more than two minutes old or records a dead process |
| `LockReclaim.StaleLockIsTaken` | internal/config/filelock.go:16-23 | behind a stale lock of a dead process, any process that wants the lock gets into the critical section by its own steps, alone |
| `LockReclaim.LiveLockStays` | internal/config/filelock.go:64-81 | the lock of a live owner, not older than two minutes, survives whatever one other process does |
| `LockReclaim.ForeignLockWaitsForAge` | internal/config/filelock.go:64-81 | a lock of another host survives two minutes whatever one other process does |
| `LockReclaim.ReleaseSparesOthers` | internal/config/filelock.go:42-48 | a release removes the lock file if it is still its own and leaves one that somebody else has put there |
| `LockReclaim.WaiterGetsFreedLock` | internal/config/filelock.go:29-62 | a waiting process gets a freed lock by its own steps |
| `LockReclaim.RecordIsTrue` | internal/config/filelock.go:34-38 | a lock file never records anybody but its creator, over every run |
| `LockReclaim.RecordIsOwn` | internal/config/filelock.go:34-38 | recording itself renews the age of a process's own lock file and touches nobody else's |
| `SerialEdits.EveryInterleavingIsSerial` | internal/config/user.go:454-477 | in every interleaving with harmless reclaims the file holds what the logged edits make of it one after the other, in the order their processes entered, and every lock-free reader saw exactly one committed version |
| `SerialEdits.EveryInterleavingKeepsGood` | internal/config/user.go:454-565 | the configuration invariant holds of the file, and of what every reader saw, in every interleaving |
| `SerialEdits.LockRunsHere` | internal/config/user.go:467-476 | the lock's part of a run is a run of the lock protocol, and harmless there means harmless here |
| `SerialEdits.NoVerdictIsSerial` | internal/config/user.go:454-477 | if no lock is judged stale, every interleaving is a serial run |
| `SerialEdits.CommitsSerially` | internal/config/fileutil.go:12-54 | a rename, a removal or a failed write changes the file exactly as the next attempt of the serial run does |
| `EditProgress.LoneEditCompletes` | internal/config/user.go:454-477 | an edit that finds the lock free can run to its end by its own steps: the file is what the edit makes of it, or as it was if creating, writing or renaming fails, and the lock is free again |
| `LoginCache.LinearizableIffDistinguishable` | internal/config/registry.go:310-352 | every interleaving of cached lookups with atomic writes is linearizable if and only if no version is separated from one that looks like it by a version that loads differently |
| `LoginCache.DistinctMetasAreDistinguishable` | internal/config/registry.go:310-315 | distinct modification times and sizes are enough for that |
| `LoginCache.HitIsExplained` | internal/config/registry.go:335-340 | in a distinguishable history, what a cache hit returns was current at some moment of the call |
| `LoginCache.CacheIsNeverOlder` | internal/config/registry.go:324-352 | over every run, whatever the history, cached content is never older than the metadata it is keyed by |
| `LoginCache.RunKeepsSound` | internal/config/registry.go:324-352 | in a distinguishable history every run keeps the cache and the pending calls sound |
| `LoginCache.StaleHit` | internal/config/registry.go:335-340 | two versions with equal time and size and a different one between them make a call return a version that was not current |
| `FailureLimiter.Limiter.Compact` | internal/rate/rate.go:62-67 | filtering a slice into its own buffer leaves exactly its unexpired entries, in order |
| `SlidingWindow.RecentKeeps` | internal/rate/rate.go:62-67 | what is kept is exactly the entries after the cutoff, each once and in order |
| `FailureLimiter.Limiter.Append` | internal/rate/rate.go:45 | appending in place or into a bigger buffer adds one entry at the end |
| `FailureLimiter.Limiter.Prune` | internal/rate/rate.go:56-73 | the key's log becomes its unexpired entries, or the key goes |
| `FailureLimiter.Limiter.SweepExpired` | internal/rate/rate.go:86-100 | every key is pruned, in whatever order the map is walked |
| `FailureLimiter.Limiter.EvictLoops` | internal/rate/rate.go:103-135 | the three eviction loops bring the map to capacity, unblocked unprotected keys first and the protected key last |
| `FailureLimiter.Limiter.SweepIfLarge` | internal/rate/rate.go:82-136 | nothing up to capacity; beyond it, the unexpired entries minus an eviction |
| `FailureLimiter.Limiter.IsBlocked` | internal/rate/rate.go:32-38 | prunes the key, sweeps, and answers whether the key's log has reached the limit |
| `FailureLimiter.Limiter.RecordFailure` | internal/rate/rate.go:41-47 | prunes the key, appends one failure, and sweeps |
| `FailureLimiter.Limiter.Reset` | internal/rate/rate.go:50-54 | forgets the key and nothing else |
| `SlidingWindow.ThreeLoops` | internal/rate/rate.go:103-135 | what three loops with these stopping conditions add up to is an eviction in the stated order of preference |
| `LimiterRuns.BlockedIsDeserved` | internal/rate/rate.go:31-98 | over every run with a nondecreasing clock, a key reported blocked has as many failures in the window as the unbounded limiter demands |
| `LimiterRuns.ExactIffUncrowded` | internal/rate/rate.go:31-98 | the limiter remembers exactly the window of the unbounded one after every call if and only if at most `capacity` keys are live after every call |
| `LimiterRuns.InitIsExact` | internal/rate/rate.go:22-29 | a new limiter is where such runs start |
| `LimiterRuns.ExactAnswers` | internal/rate/rate.go:32-38 | while the memory is exact, the answer is the unbounded limiter's |
| `LimiterAnswers.BlockedIsEarned` | internal/rate/rate.go:31-73 | over every run of a new limiter a check answers "blocked" only if that many failures of the key were recorded in the window and not reset since: counted in the calls, not in anything the limiter keeps |
| `LimiterAnswers.UncrowdedAnswersAreExact` | internal/rate/rate.go:31-98 | and exactly then, while no more than `capacity` keys have failures in the window |
| `LimiterRuns.EvictionDiscipline` | internal/rate/rate.go:75-136 | every call leaves at most `capacity` keys, evicts at most one unexpired key, never the key being checked or recorded given any capacity, and a blocked key only if every other unprotected key is blocked |
| `LimiterRuns.BlockedStaysBlocked` | internal/rate/rate.go:75-136 | a key once blocked stays blocked while enough of its failures are in the window, whatever happens to other keys, if it is not reset and the limiter holds fewer than `capacity` keys blocked before each call |
| `LimiterRuns.HeldAreDeserving` | internal/rate/rate.go:31-136 | the keys the limiter holds blocked are among those the unbounded one blocks, however many of those there are |
| `LimiterDriver.Perform` | internal/rate/rate.go:31-54 | one call of the limiter, whichever it is, is one step of the runs these results are about |
| `LimiterDriver.Drive` | internal/rate/rate.go:31-54 | any sequence of calls on a limiter is such a run, with the answers it gives |
| `LimiterRuns.StepKeepsInv` | internal/rate/rate.go:31-136 | every call keeps the map within capacity, without empty logs, and never above what the unbounded limiter remembers |
| `UserConfig.AcceptServices` | internal/config/user.go:318-370 | deleting while walking keeps exactly the services that are accepted, normalized and in order |
| `UserConfig.LoadUserConfig` | internal/config/user.go:290-385 | an unreadable file is an error; otherwise the accepted services, and the default only if one of them has that ID |
| `UserConfig.SerializeServices` | internal/config/user.go:796-832 | one document entry per service, zero fields omitted |
| `UserConfig.SaveThenLoad` | internal/config/user.go:290-385 | loading what was saved gives the same services if and only if every one is canonical |
| `UserConfig.ReloadedIffCanonical` | internal/config/user.go:796-832 | one service comes back as it was if and only if it is canonical |
| `UserConfig.LoadedIsCanonical` | internal/config/user.go:318-370 | a loaded service is canonical, unless the file gave a negative bandwidth limit |
| `ConfigChecks.LoadsExactly` | internal/config/user.go:318-370 | exactly the services whose path is not blank and valid once normalized load, each once and in order |
| `ConfigChecks.AcceptedIs` | internal/config/user.go:322-368 | a loaded service has the default host if it had none, its path and hostnames normalized, and everything else as it stands |
| `ConfigChecks.DecodedIs` | internal/config/user.go:290-316 | missing fields of a service are read as empty |
| `ConfigChecks.OmittedAre` | internal/config/user.go:796-832 | a save leaves out empty descriptions, backend paths, hostnames, categories and bootstrap blocks, limits that are none and an unset root-absolute flag, and nothing else |
| `ConfigChecks.DefaultIs` | internal/config/user.go:372-385 | the default service is kept exactly if a loaded service has that ID |
| `ConfigChecks.BootstrapsAre` | internal/config/user.go:190-219 | which bootstrap blocks load, and what of them is normalized |
| `UserConfig.BootstrapTwice` | internal/config/user.go:190-219 | normalizing a bootstrap block twice is normalizing it once |
| `ConfigEdits.NextOrder` | internal/config/user.go:539-546 | one more than the largest order, wrapped to 64 bits |
| `ConfigEdits.ValidateHostnames` | internal/config/user.go:647-665 | the normal forms, unless an entry is no hostname or another service has it |
| `ConfigEdits.AddToServices` | internal/config/user.go:489-552 | the service an addition stores, or a refusal, as the additions specification says |
| `ConfigEdits.UpdateOne` | internal/config/user.go:676-737 | the field-by-field update of one service, or a refusal |
| `ConfigEdits.UpdateInServices` | internal/config/user.go:668-743 | the first service of the ID is updated, all others stay; an unknown ID is refused |
| `ConfigEdits.RemoveFromServices` | internal/config/user.go:603-615 | the services without those of the ID; an unknown ID is refused |
| `ConfigEdits.ArrangeServices` | internal/config/user.go:760-782 | each service gets the order and category of its item, if the items name every service once |
| `ConfigEdits.SelfIsIgnored` | internal/config/user.go:652-663 | a service's own hostnames do not count against it, whatever else of it changes |
| `ConfigEdits.CompleteMeansAll` | internal/config/user.go:760-780 | a layout that passes the checks names exactly the services, whose IDs are then distinct |
| `ConfigInvariant.EveryRunKeepsGood` | internal/config/user.go:481-788 | every sequence of edits, with any failures, keeps: nonempty unique IDs, valid unique paths, ports in range, limits not negative, hostnames normalized and disjoint, the default absent or existing |
| `ConfigInvariant.EditKeepsGood` | internal/config/user.go:413-788 | one edit keeps the invariant, and none panics when its two reads agree |
| `ConfigInvariant.ServiceEditKeepsGood` | internal/config/user.go:481-788 | every service edit that succeeds on good services gives good services |
| `ConfigInvariant.ServiceEditIsRead` | internal/config/user.go:556-560 | what a saved service edit wrote is what the next load sees |
| `ConfigInvariant.EditFootprint` | internal/config/user.go:411-449 | password and second-factor edits change their own field only; service edits leave the account and all other content alone |
| `ConfigInvariant.AccountsAreNotClobbered` | internal/config/user.go:252-282 | creating never overwrites, no other edit creates, and an unreadable file is only ever removed |
| `ConfigInvariant.AccountSurvives` | internal/config/user.go:252-449 | over every run of edits without a removal, failed ones included, the account stays, with the password and the second factor the last successful edit of each gave it, and the operator's other content with it |
| `ConfigChecks.CreationGivesAccount` | internal/config/user.go:252-274 | creating an account where there is none leaves exactly its password and no services |
| `ConfigChecks.AccountsComeAndGo` | internal/config/user.go:256-282 | creating changes the file exactly if there is none and the hash is valid; after a removal there is none |
| `ConfigChecks.PasswordHashesAre` | internal/config/user.go:115-126 | which password hashes are valid, spelled out |
| `ConfigChecks.EveryBackendIsVetted` | internal/config/user.go:481-750 | over every run of edits, each backend host in the file was there from the start or named by an edit written when the network allowed it, and each host and port was there or did not reach the gateway when an edit wrote it |
| `ConfigChecks.AddedIff` | internal/config/user.go:481-552 | an addition is accepted exactly if its backend is allowed and not the gateway, its numbers are in range, its path is valid and free, and its hostnames are free |
| `ConfigChecks.AddedNames` | internal/config/user.go:507-528 | an accepted addition gets the first free ID made from the one it asks for, "service" if it asks for none, and without a path the first free one made from that ID |
| `ConfigChecks.UpdatedIff` | internal/config/user.go:668-737 | an update of an existing service is accepted exactly if what it gives is, and the backend that results is not the gateway |
| `ConfigChecks.ResendingChangesNothing` | internal/config/user.go:668-737 | resending a good service as it is changes nothing, and is refused only for its backend |
| `ConfigChecks.AddingAdds` | internal/config/user.go:481-565 | adding to a good file is saved exactly if the addition is accepted, and the services then load with the new one last |
| `ConfigChecks.UpdatingUpdates` | internal/config/user.go:668-750 | updating is saved exactly if the update is accepted, and what then loads is the updated services |
| `ConfigChecks.RemovingRemoves` | internal/config/user.go:596-627 | removing is saved exactly if a service has the ID, and what then loads is the services without that one |
| `ConfigChecks.ArrangingArranges` | internal/config/user.go:753-788 | a layout is saved exactly if it names every service once, and what then loads is the services so placed |
| `ConfigInvariant.AccountAndServiceEditsCommute` | internal/config/user.go:411-565 | an account edit and a service edit give the same file in either order |
| `ConfigInvariant.AdditionKeepsTheRest` | internal/config/user.go:481-565 | an addition keeps every field but ID, host, path, order and hostnames; a free ID is kept, a given path and given hostnames are stored normalized |
| `ConfigInvariant.UpdatesTakeEffect` | internal/config/user.go:630-643 | an update giving every field of a good service makes the service that one; an empty update changes nothing |
| `ConfigInvariant.UpdatesAreLocalAndIdempotent` | internal/config/user.go:668-749 | an update changes one service, keeps its ID, and does nothing the second time |
| `ConfigInvariant.RemovalDeletesOne` | internal/config/user.go:596-615 | with unique IDs a removal deletes exactly that service |
| `ConfigInvariant.SlugAdditionSucceeds` | internal/config/user.go:507-528 | an addition with a slug as ID and a generated path never fails for its ID or path |
| `ConfigInvariant.AddedIsLast` | internal/config/user.go:539-546 | a new service is ordered behind all others if and only if none has the largest 64-bit order |
| `ConfigInvariant.LayoutIsPermutation` | internal/config/user.go:753-788 | with unique service IDs a layout is accepted if and only if its items name every service exactly once |
| `ConfigFiles.ConfigFile.AddService` | internal/config/user.go:481-565 | the file becomes what one attempt makes of it, unchanged if anything fails, and the service returned is the one stored |
| `ConfigFiles.ConfigFile.UpdateService` | internal/config/user.go:668-750 | likewise for an update |
| `ConfigFiles.ConfigFile.RemoveService` | internal/config/user.go:596-627 | likewise for a removal, which also forgets a default that pointed at the service |
| `ConfigFiles.ConfigFile.UpdateServicesLayout` | internal/config/user.go:753-788 | likewise for a layout |
| `ConfigFiles.ConfigFile.Create` | internal/config/user.go:256-274 | creates only with a valid hash and only where there is no file |
| `ConfigFiles.ConfigFile.Remove` | internal/config/user.go:278-282 | removes the file if there is one |
| `ConfigFiles.ConfigFile.UpdatePasswordHash` | internal/config/user.go:413-427 | replaces the hash in the document as it stands |
| `ConfigFiles.ConfigFile.UpdateTotpSecret` | internal/config/user.go:431-449 | sets the secret, or removes the field for an empty one |
| `ServicePaths.NormalizeFixes` | internal/config/user.go:141-181 | normalizing leaves every valid path alone |
| `ServicePaths.SlugPath` | internal/config/paths.go:78-80 | a slug makes a valid path as it is |
| `ServicePaths.SlugifyGivesSlug` | internal/config/paths.go:64-76 | slugs are nonempty and made of safe characters, whatever the name |
| `Slugs.SlugIsTidy` | internal/config/paths.go:64-76 | no slug has a hyphen at an end or two in a row |
| `Slugs.SlugOfWords` | internal/config/paths.go:64-76 | of a name that is just words, capitals become small, spaces hyphens, and nothing else changes |
| `Slugs.SlugKeepsLetters` | internal/config/paths.go:64-76 | a slug has exactly the letters, digits and underscores of the name, in order, or is "service" if there are none |
| `Slugs.SlugTwice` | internal/config/paths.go:64-76 | a slug is its own slug |
| `Slugs.SlugFixes` | internal/config/paths.go:64-76 | a tidy slug is its own slug |
| `Slugs.EverySpellingNormalizes` | internal/config/user.go:141-151 | a service path is the same with or without its first slash, with slashes behind it and white space around it |
| `Slugs.NothingIsRoot` | internal/config/user.go:141-151 | slashes and white space alone are the root |
| `Slugs.ServicePathsAre` | internal/config/user.go:154-181 | which paths are valid, spelled out: the root, or segments of unreserved characters, none of them "." or ".." |
| `Slugs.UsernamesAre` | internal/config/paths.go:25-62 | which usernames are valid, spelled out: up to 32 letters, digits, underscores and hyphens, with neither a digit nor a hyphen in front |
| `ServicePaths.MakeUnique` | internal/config/user.go:511-514 | the suffix loop ends, with the first free candidate |
| `ServicePaths.FirstFreeIsFirst` | internal/config/user.go:511-525 | the pigeonhole: the first free suffix comes within one step per existing name |
| `Hostnames.NormalizeHostnames` | internal/config/host.go:45-61 | the normal forms in order of first appearance, and the entries that are no hostnames |
| `Hostnames.NormalizeTwice` | internal/config/host.go:17-41 | normalizing is idempotent |
| `Hostnames.KeptExactly` | internal/config/host.go:45-61 | the names kept are exactly the normal forms of the entries, each once |
| `Hostnames.DroppedExactly` | internal/config/host.go:49-53 | an entry is reported dropped exactly if it is no hostname |
| `Hostnames.KeptFixes` | internal/config/host.go:45-61 | a list is left as it is if and only if it is normalized and without repetitions |
| `Hostnames.EverySpellingIsFound` | internal/config/host.go:66-77 | a Host header in any letter case, with or without a final dot and a port, yields the stored name |
| `HostnameRules.HostnamesAre` | internal/config/host.go:10-41 | which names are hostnames: dotted labels, at most 253 characters, no IPv4 address |
| `HostnameRules.EverySpellingIsStored` | internal/config/host.go:17-41 | a hostname in any letter case, with white space around it and a final dot or not, is stored as the same name |
| `HostnameRules.SplitsIff` | internal/config/host.go:66-77 | a Host header has a port exactly if it is a host without colons or brackets, or a bracketed one, followed by a colon and the port |
| `HostnameRules.BracketedIsFound` | internal/config/host.go:66-77 | what a bracketed host, with or without a port, is looked up as |
| `HostIndex.BuildHostIndex` | internal/config/registry.go:119-159 | a name is routable, to the service claiming it, if and only if it is claimed exactly once; names claimed more often are listed with their sorted owners |
| `HostIndex.IndexIsUnique` | internal/config/registry.go:119-159 | the index does not depend on the order in which maps are walked |
| `HostIndex.EveryNameIsPlaced` | internal/config/registry.go:145-158 | routable and conflicting names are disjoint and together are all names claimed |
| `HostIndex.IndexRoutes` | internal/config/registry.go:145-149 | looking a name up in the index gives the one service that claims it, or nothing if none or several do |
| `HostRegistry.Registry.Reload` | internal/config/registry.go:51-111 | a readable directory replaces users and index together; an unreadable one changes nothing |
| `HostRegistry.ScanFinds` | internal/config/registry.go:69-99 | a scan finds exactly the users with a file of a valid name that loads |
| `HostRegistry.Registry.GetUser` | internal/config/registry.go:253-296 | loading one user on demand leaves the index that of the last scan |
| `HostRegistry.Registry.FindByHost` | internal/config/registry.go:162-167 | finds the service with the only claim to the name in the last scan, of a registered user, and nothing if there are none or several |
| `HostRegistry.Registry.HostOwners` | internal/config/registry.go:190-211 | one entry for each service that has the name, but the excepted one, conflicting names included, in sorted order |
| `HostRegistry.OwnerIsTold` | internal/config/registry.go:190-211 | the name of an owner tells user and service apart |
| `HostRegistry.FreeNameBecomesRoutable` | internal/config/registry.go:186-211 | a name nobody else claims has exactly one claim once a service takes it |
| `Layout.GroupServicesByCategory` | internal/config/user.go:845-871 | the groups of the stably sorted services, categories in order of first appearance |
| `Layout.GroupingConserves` | internal/config/user.go:845-871 | the groups together hold exactly the services, each once |
| `Layout.EachGroup` | internal/config/user.go:838-871 | each group is nonempty, has its own category, and holds its services by order, ties as in the file |
| `Layout.SelectSorted` | internal/config/user.go:846-848 | the sort is stable: selecting before or after it is the same |
| `Layout.GroupServices` | internal/web/templates/script.js:69-81 | the page groups as the server does, and throws exactly if a category is a name every object inherits |
| `Layout.ThrowsIff` | internal/web/templates/script.js:69-81 | services without a category never make the page throw |
| `Layout.CollectLayoutItems` | internal/web/templates/script.js:219-230 | the cards numbered through in screen order, the default category sent as none |
| `Layout.LabelIsNotStored` | internal/web/templates/script.js:219-230 | the label of the default category is never sent as a category |
| `Layout.LayoutRoundTrip` | internal/config/user.go:753-788 | any arrangement of the services on screen, saved and grouped again, shows the same nonempty blocks with the same cards in the same order |
| `Routing.FindService` | internal/config/registry.go:363-421 | the match the specification of canonical paths gives |
| `Routing.FoundMeans` | internal/config/registry.go:363-421 | a match names the user of the path and a service of maximal covering path; no match means none covers it |
| `Routing.CoversIff` | internal/config/registry.go:396-400 | a service covers its own path and what follows it behind a slash, and one at "/" everything |
| `Routing.NamesUserIff` | internal/config/registry.go:367-385 | a path names a user exactly if it is /proxy/, a valid username, and something that starts with a slash |
| `Routing.FoundIgnoresOrder` | internal/config/registry.go:390-418 | with unique paths the match does not depend on the order of the services |
| `Routing.NothingIsLost` | internal/config/registry.go:396-416 | mount and remaining path make up the request path |
| `Routing.MountLeadsBack` | internal/config/registry.go:363-421 | a path below a service's mount finds that service, with the rest of the path, if and only if no nested service covers it; its own prefix always does |
| `Routing.FindLegacyService` | internal/config/registry.go:424-467 | the match the specification of legacy paths gives |
| `Routing.FoundLegacyMeans` | internal/config/registry.go:424-467 | a legacy match is a service of the given user with a maximal covering path |
| `Routing.LegacyCoversIff` | internal/config/registry.go:424-467 | under the legacy prefix a query may follow its path as well |
| `Routing.BestBareService` | internal/server/server.go:1299-1317 | the first service with the longest path that covers the bare path |
| `Routing.BareAgreesWithCanonical` | internal/server/server.go:1299-1352 | a bare path goes where its canonical form goes, with the same remaining path, except that a service at "/" claims only "/" and paths with two leading slashes |
| `Routing.RedirectLandsOnService` | internal/server/server.go:1339-1352 | following the redirect of a bare path reaches the service that claimed it, at the same place |
| `Serving.EveryForwardIsOwn` | internal/server/server.go:154-369 | whatever the Host and whatever branch forwards, the session is valid and the service belongs to the session's user |
| `Decisions.HandleProxyIsOwn` | internal/server/server.go:1003-1044 | direct proxy requests reach the session user's own services only |
| `Decisions.EveryForwardKeepsThePath` | internal/server/server.go:1047-1090 | below /proxy/ the mount and the path the backend is asked for make up the request, for writes to a bare service path the service's path and that path do, and everything else is forwarded under the path it came with |
| `Decisions.DefaultIsConfigured` | internal/config/user.go:577-584 | the default service is the first one with the configured ID |
| `DecisionTable.UsersGetTheTable` | internal/server/server.go:154-369 | route by route, the handlers answer a session's user as a table of candidates in order of preference says |
| `DecisionTable.StrangersGetTheTable` | internal/server/server.go:154-369 | and everybody else as a table without services says |
| `DecisionTable.HostsGetTheTable` | internal/server/server.go:438-506 | a virtual host serves its owner at the path asked for, hides itself from other users and sends strangers to the login |
| `DecisionTable.OwnMountIsServed` | internal/server/server.go:1003-1044 | every path below a service's mount is served by that service, at what follows the mount, if no nested service claims it |
| `DecisionTable.PagesAre` | internal/server/server.go:1276-1295 | which paths are pages, spelled out |
| `DecisionTable.GatewayRoutesAre` | internal/api/api.go:72-88 | which calls the gateway answers itself |
| `Decisions.PathsTellStrangersNothing` | internal/server/server.go:154-369 | without a session no path's answer depends on any configuration, or looks like a virtual host's |
| `Serving.StrangersSeeOnlyHosts` | internal/server/server.go:438-456 | without a session two gateways answer alike if and only if the Host is claimed exactly once in both or in neither |
| `Serving.ClaimsDecide` | internal/server/server.go:438-470 | what a session gets on a Host, by who claims it: its own virtual host, "not found" if it is another user's alone, and otherwise what the path says |
| `Serving.OthersStayHidden` | internal/server/server.go:438-470 | if no other user claims the Host, what a user gets depends on no other user's configuration, unless the path or the Referer names another user under whose name the user has a legacy match |
| `Serving.HiddenIffUntold` | internal/server/server.go:438-470 | with path and Referer clear, the answer is the same whatever other users have configured if and only if the Host is no hostname, or the user's own services claim it twice, or the user's claims and the path leave nothing to tell apart |
| `Decisions.HiddenIffClear` | internal/server/server.go:1022-1043 | for direct proxy paths that condition is exact |
| `Decisions.EveryRedirectStaysHere` | internal/server/server.go:154-369 | every redirect to a path is aimed at a path on this gateway, never at another host |
| `Locations.LocationIsOnGateway` | internal/server/server.go:601 | and so is the Location it is answered with, once the path has been cleaned |
| `Locations.OnlyEscapesAreCleaned` | internal/server/server.go:154-369 | cleaning changes no redirect but that of an escaped root request |
| `Locations.EscapeStaysHomeIff` | internal/server/server.go:579-601 | an escaped root request is sent into the user's own proxy paths if and only if the route enters the user's directory and no ".." behind that climbs out of it again |
| `Locations.LevelRoutesStayHome` | internal/server/server.go:579-601 | in particular if no ".." in the route climbs above where it started |
| `Locations.EscapeReachesOther` | internal/server/server.go:592-601 | a route that climbs out is sent to any other user's paths |
| `Decisions.ReadsAndWritesAgree` | internal/server/server.go:1319-1352 | a redirected GET of a bare path, once followed, is forwarded exactly as another method is directly |
| `Decisions.PagesIgnoreHistory` | internal/server/server.go:1229-1240 | page-like bare paths go to the default service whatever Referer and cookies say, for users without root-absolute services |
| `Decisions.AssetsFollowTheirPage` | internal/server/server.go:1381-1442 | a bare asset path no service claims goes to the service whose page asked for it, whatever cookies and default service there are |
| `Decisions.LooksLikePage` | internal/server/server.go:1276-1295 | a page has no segment with a file extension and no asset root in front |
| `RouteCookies.ParseCookies` | internal/auth/auth.go:226-247 | the last value of each name that has a nonempty name and an equals sign |
| `RouteCookies.HeaderRoundTrip` | internal/auth/auth.go:226-247 | a header written from plain cookies parses back to them |
| `RouteCookies.NamelessIsNoCookie` | internal/auth/auth.go:226-247 | a part without a name is skipped |
| `RouteCookies.RouteCookieValues` | internal/auth/auth.go:434-454 | all routes in the jar, each once, the recent one first, in any map order |
| `RouteCookies.BestRouteForPath` | internal/auth/auth.go:456-470 | the first of the longest routes that cover the path |
| `RouteCookies.RouteCoversIff` | internal/auth/auth.go:456-470 | which paths a route covers, spelled out |
| `RouteCookies.GetRouteCookieForRequest` | internal/auth/auth.go:395-432 | path first, then Referer, then the only route, then the recent one |
| `RouteCookies.ChosenIgnoresOrder` | internal/auth/auth.go:395-470 | when no route ends in two slashes, the chosen route does not depend on the map's order |
| `RouteCookies.GatewayRoutesHaveOneSlash` | internal/proxy/proxy.go:80-84 | every route the gateway writes, canonical or legacy, is of that kind |
| `RouteCookies.OrderFreeIffSettled` | internal/auth/auth.go:434-470 | for every jar and path, the best route is the same in every map order if and only if the longest covering route is unique or the recent route is one of the longest |
| `RouteCookies.ChosenIsOrderFreeIff` | internal/auth/auth.go:395-470 | the route of a whole request is the same in every map order if and only if this holds for the path that decides: the request's own if a route covers it, else the Referer's |
| `RouteCookies.DoubleSlashDepends` | internal/auth/auth.go:434-470 | a jar of two per-service cookies, one route ending in two slashes, and two orders of walking it that choose differently |
| `RouteCookies.BareRequestFollowsLastVisit` | internal/auth/auth.go:395-432 | after any visits, a request without Referer under no route is given the route of the last one, images aside, whatever the cookies are named |
| `Visits.NextRequestFollowsLastVisit` | internal/server/server.go:1177-1216 | and the route cookie then forwards it to the service visited last, one at "/" included |
| `Visits.StrayAssetsFollowLastVisit` | internal/server/server.go:154-369 | so a bare asset path no service claims, asked for without Referer, goes to the service visited last through the whole chain |
| `Redirects.RewrittenIff` | internal/proxy/proxy.go:473-496 | a Location is rewritten if and only if it is a rooted path of this host outside /proxy/, or an absolute URL of the backend's own host with such a path |
| `Redirects.RedirectClosure` | internal/proxy/proxy.go:473-557 | a backend redirect to a path with or without a final slash is rewritten to a gateway path the mux leaves alone; it is routed to the same service if and only if no nested service claims it, and the backend is asked for the original path again if and only if there is no backend path, or the path has no final slash, lies in the backend path's directory and is not that directory standing in for a file |
| `Redirects.RootServiceClosure` | internal/proxy/proxy.go:80-84 | the same for a service at "/", whose rewritten paths have a doubled slash, by way of the mux's own redirect to the cleaned path |
| `Redirects.RootRedirectClosure` | internal/proxy/proxy.go:498-509 | the same without a prefix, for services that own the root; when only a query is left, which happens for a backend path with a final slash, the browser stays where it is |
| `Redirects.OnlyPathsAreAskedFor` | internal/proxy/proxy.go:720-742 | whatever Location is followed, the backend is only ever asked for paths without empty and dotted elements, so a redirect to any other path never comes back as it was |
| `Redirects.DirectoryRedirectLoops` | internal/proxy/proxy.go:720-742 | behind any backend path, a backend's redirect from a directory to the same with a final slash, once followed, asks for the directory without it again |
| `Redirects.AppDirectoryLoops` | internal/proxy/proxy.go:720-742 | for example behind /app, for /app/dir/ |
| `Redirects.LegacyRedirectClosure` | internal/proxy/proxy.go:80-84 | under the legacy prefix the rewritten path is a legacy path of the same service if and only if no service with a longer path claims it |
| `Redirects.LegacyRootIsLost` | internal/proxy/proxy.go:80-84 | a service at "/" keeps under the legacy prefix no redirect but that to its own root |
| `Redirects.JoinUndoesStrip` | internal/proxy/proxy.go:517-557 | joining the stripped path gives the path back under exactly that condition |
| `Redirects.JoinIs` | internal/proxy/proxy.go:720-742 | joining puts the remaining path, without its final slash, below the backend path or below the directory of a file-like one |
| `Redirects.RelativeIs` | internal/proxy/proxy.go:517-557 | stripping, with any query: the backend path is the root, what lies in its directory goes below it, and the directory itself depends on query and kind |
| `Redirects.BaseIsDirectory` | internal/proxy/proxy.go:101-110 | the base of relative links is the mount followed by the directory of the document, which is the document itself if its path ends in a slash |
| `Redirects.BaseOfUnrooted` | internal/proxy/proxy.go:101-110 | a remaining path without a slash in front has the base of the one with it |
| `UrlPaths.JoinClean` | internal/proxy/proxy.go:741 | joining clean paths is concatenation |
| `UrlPaths.JoinPaths` | internal/proxy/proxy.go:741 | and final slashes do not survive it |
| `UrlPaths.CleanIsClean` | internal/proxy/proxy.go:731-733 | cleaning any rooted path gives a clean one |
| `HtmlBase.IndexOpeningTag` | internal/proxy/proxy.go:617-635 | the first opening tag of the name, longer names excluded, or none |
| `HtmlBase.InjectBaseTag` | internal/proxy/proxy.go:641-684 | the body with the tag inserted at one place, the first of its kind, chosen in the stated order of preference |
| `HtmlBase.HeadGetsTag` | internal/proxy/proxy.go:641-684 | the tag goes behind the first head tag, in whatever case and with whatever attributes it is written |
| `HtmlBase.HeadEndGetsTag` | internal/proxy/proxy.go:641-684 | without one, in front of the first end of a head |
| `HtmlBase.BodyGetsTag` | internal/proxy/proxy.go:641-684 | without either, in front of the first body tag |
| `HtmlBase.HtmlGetsTag` | internal/proxy/proxy.go:641-684 | without any of them, behind the first html tag |
| `HtmlBase.FragmentGetsTag` | internal/proxy/proxy.go:641-684 | and in front of a fragment that has none of the four |
| `HtmlBase.HeaderIsNotHead` | internal/proxy/proxy.go:615-635 | a header element is never taken for the head |
| `Base64Url.RoundTrip` | internal/auth/auth.go:54-68 | decoding undoes encoding for all bytes, padding restored and line breaks skipped |
| `Tokens.SessionRecovers` | internal/auth/auth.go:155-221 | a session token gives back its user and expiry at its own revision until it expires, and then nothing |
| `Tokens.PendingRecovers` | internal/auth/auth.go:625-675 | a pending token gives back its user until it expires |
| `Tokens.SetupRecovers` | internal/auth/auth.go:701-735 | a setup token gives back its user and secret until it expires |
| `Tokens.SessionAcceptedIff` | internal/auth/auth.go:184-221 | a string is accepted as a session of a user until some expiry if and only if it decodes to that user, some spelling of that expiry, any text, and the MAC of user, expiry and current revision, and that expiry is not past |
| `Tokens.PendingAcceptedIff` | internal/auth/auth.go:652-675 | likewise for pending tokens |
| `Tokens.SetupAcceptedIff` | internal/auth/auth.go:715-735 | likewise for setup tokens, whose MAC binds the secret |
| `Tokens.FormatsNeverOverlap` | internal/auth/auth.go:155-735 | no token of one format is accepted by another format's parser |
| `Tokens.PayloadsNeverCoincide` | internal/auth/auth.go:155-721 | no two formats ever sign the same payload |
| `Tokens.RevisionRevokes` | internal/auth/auth.go:184-221 | whatever string it is, a token accepted at one revision is accepted at no other |
| `Sessions.TokensAreHeld` | internal/auth/auth.go:155-221 | real tokens behave as their expiry and revision do |
| `Sessions.ActiveSessionsLast` | internal/auth/auth.go:474-484 | with a quarter of the lifetime left and checks less than a quarter apart, no request meets an expired session while the password stays |
| `Sessions.SessionsLastIffBelowQuarter` | internal/auth/auth.go:474-484 | for every lifetime and gap: all runs from a login with checks at most the gap apart are accepted if and only if the gap is less than a quarter of the lifetime, or nothing |
| `Sessions.QuarterIsTooLate` | internal/auth/auth.go:480-483 | for every larger gap, the run of requests that misses the refresh |
| `Sessions.ExpiryIsBounded` | internal/auth/auth.go:155-157 | no token outlives its issue by more than the lifetime |
| `Sessions.ChangeRevokesIffNoStraddle` | internal/server/server.go:116-125 | after the revision changes no earlier token nor any refresh of one is accepted, if and only if no request was validated before and refreshed after the change |
| `Activity.ForwardsAreCheckedIff` | internal/server/server.go:1322-1337 | a forwarded request runs the refresh check unless it is a form for a backend's login or a write to a bare service path |
| `Activity.GatewayCallsCheckIff` | internal/api/api.go:91-111 | the gateway's own calls run the check unless they change something and come from elsewhere |
| `Activity.CheckedActivityLasts` | internal/auth/auth.go:474-484 | a session lasts through any visits if none comes a quarter of the lifetime or more after the last one that was checked |
| `Activity.SilentWritesExpire` | internal/server/server.go:1322-1337 | a client that makes only the unchecked writes is accepted until its token expires and no longer, however busy it is |
| `Text.SplitOfJoin` | internal/auth/auth.go:157-162 | splitting undoes joining for parts without the separator |
| `Text.ParsePrint` | internal/auth/auth.go:177-180 | parsing undoes printing for every 64-bit integer |

## Assumptions

- Strings are ASCII; bytes of tokens are characters below 256.
- A process is alive when the liveness probe says so about a live process; the probe may say
  "alive" of a dead one.  Edits inside one process are serialized by its own mutex, so a
  process is in one edit at a time.
- A rename replaces the path at once; an inode somebody has open is not reused.
- The second read an edit makes under the lock returns the file (a read error there would make
  the code write into a nil map; the outcome `Panic` stands for it).
- The MAC is a function from payloads to hex strings; revocation assumes it injective, and
  distinct revisions for distinct password hashes.
- A request is served from one snapshot of the registry.  Paths contain no percent escapes, and
  redirects name paths without fragments; targets of the gateway's own redirects parse as URLs.

## Left out

- `ConfigLock.NoStaleVerdictIsSafe`: partial writes of the lock record are not modelled; the record is written or not.
- `LimiterRuns.BlockedStaysBlocked`: the mutex around each call is taken as atomicity of the call.
- `Serving.EveryForwardIsOwn`: handlers the gateway answers itself (login, second factor, logout, API) are single outcomes, a login redirect stands also for the error a gateway without public host gives, and side effects such as refreshed cookies are not part of a decision.
- `Serving.StrangersSeeOnlyHosts`: the login page is one outcome, whether or not it keeps the `next` address it was given (it keeps one on a routable host).
- `Redirects.RedirectClosure`: parsing an absolute Location and comparing its host with the backend's are inputs; a relative Location that starts with /proxy/ is left alone by the code and not covered; nor are backend paths with a query or with empty or dotted elements.
- `RouteCookies.GetRouteCookieForRequest`: the path of the Referer is an input, taken from the raw header as the code does.
- `HostRegistry.Registry.FindByHost`: the timer that triggers a reload before a lookup is not modelled; reloads happen at any time.
- `Redirects.BaseIsDirectory`: URL escaping of the result is not modelled.
- `HtmlBase.InjectBaseTag`: bodies are ASCII, so folding case keeps every position.
- `Sessions.ActiveSessionsLast`: the refresh threshold is a whole quarter; rounding of the floating-point product beyond 2^53 seconds is not modelled.
- Power loss: `fsync` of files and directories has no counterpart; a crash is the end of a process.
- I/O errors while reading, file permissions, and directories that cannot be created.
- `state.yaml`, which is also written outside the lock.
- Freshness between overlapping reloads: an older scan may replace a newer one.
- YAML and JSON syntax; the document is a record with optional fields. Password-hash normalization on load.
- Which hosts resolve to private addresses and which targets reach the gateway itself (parameters of every edit), DNS, TLS, dialing.
- bcrypt, SHA-256, HMAC and TOTP internals; random secrets.
- Cookie attributes, header rewriting, single sign-on headers, session bootstrap of backends.
- The bandwidth limiter in `internal/rate/io.go`, a wrapper around a library that is not part of this model.
- HTML templates and all of the dashboard script but its two layout functions; orders beyond 2^53 in the page.
