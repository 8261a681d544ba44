# Models of the server panel's stateful engines

Most of the panel is input and output, but it contains a number of small engines whose guarantees
hold over whole runs: a rollback, a queue between goroutines, token families, a purged cache, rows
that a kernel chain must agree with. Each is modelled here in Dafny and its guarantees are proved for
every input, every run and, where several goroutines meet, every interleaving.

`dafny verify dfyconfig.toml` checks all files together.

## How the models are built

- An engine that changes state is a `class` whose methods carry the loops and branches of the source. A
  method's contract equates the new state with a specification function of the old one. The lemmas are
  about these functions and about runs of them.
- Engines shared between goroutines (`EventBus`, `AuditWriter`) are also given as machines whose steps
  interleave freely. A SQL transaction is one atomic step.
- Time is an integer argument, in nanoseconds where constants matter. Calls to the disk, the kernel
  tables or the database may fail (`if *`, a `Fault`, or a record of faults); what a failure leaves
  behind is part of the contract.
- A condition that makes a property fail is stated as an if-and-only-if.

| File | Models |
|---|---|
| `Common.dfy` | options, filters, first occurrences, decimal numbers |
| `ArchiveExtract.dfy` | archive extraction with a record of created nodes and its rollback |
| `EventBus.dfy` | the plugin event bus: publisher micro-steps, consumers, retries |
| `RefreshTokens.dfy` | refresh-token rotation with reuse detection |
| `Sessions.dfy` | the session store and its background sweep |
| `Nft.dfy`, `PortAcl.dfy` | rule chains with tagged rules; exposed-port access control on top of them |
| `PortSpan.dfy`, `PortForward.dfy` | port expressions; the port-forward table and its conflicts |
| `ForwardChains.dfy`, `PortForwardService.dfy` | the three kernel chains of port forwarding; the service |
| `ReplayGuard.dfy` | the replay guard of the device channel |
| `AuditWriter.dfy` | the batching audit writer and its shutdown |
| `SqlEscape.dfy`, `SqlBuilder.dfy`, `SqlTokens.dfy`, `SqlMeaning.dfy` | escaping against the servers' lexers; rendered and prepared statements; the tokens a server reads in them, and what they say |
| `AlertService.dfy` | the alert evaluator |
| `JournalRuns.dfy` | grouping journal records into runs |
| `RedisRestore.dfy` | restoring a Redis dump under faults |
| `VerifyLimiter.dfy` | the limiter of second-factor attempts |
| `MonitorRing.dfy` | the ring buffer of monitor points |

## What the code does not do

Where the code falls short of what its comments or its purpose promise, the model follows the code and a
lemma says exactly when the promise holds.

- Extraction truncates an existing file it is to overwrite and records it as created, so a rollback
  deletes it. Whether a failure restores the old tree can be told beforehand from the archive and the
  tree (`FailureRestoresIff`, `Manager.Extract`).
- `ReplaceSession` keeps the old row's client type and id, and `UpdateActivity` brings a row that has
  gone idle back to life, unless a sweep came first. When that can be seen is stated exactly
  (`SweepBeforeReplaceIff`, `SweepBeforeReplaceAskedIff`, `SweepBeforeUpdateIff`).
- A repeated `Expose` of a managed port appends its rules behind the old drop rule, so the old networks
  stay in force (`RepeatedExposeWorksIff`); the comment in `port_acl.go` says that old rules are removed first.
- Kernel rules can outlive their row for good. `CreatePortForward`, when the kernel refuses a later rule,
  deletes the row but not the rules already added; `DeletePortForward` and `Revoke` delete the row although
  the removal of its rules failed unnoticed. A replay only removes the rules of rows there are, and ids are
  not used again. An exact replay brings agreement exactly if no step did this (`PortAcl.ReapplySyncsUnlessOrphaned`,
  `ForwardChains.ReplaySyncsUnlessOrphaned`, with the witnesses `FailedRemovalLeavesOrphans` and
  `TakenBackCreateLeavesARule`).
- A replay without an error need not be an exact one (`SilentReplayMayDouble` in both models): removals fail
  unnoticed. One that applied every row brings agreement exactly if there was no orphan and its removals left
  none of the rows' rules (`FullReplaySyncsIff` in both models).
- `CreatePortForward` uses the submitted id when it looks for conflicts. With the id of an enabled rule a
  conflicting rule gets in (`CreateKeepsConflictFreeIff`). It also installs the kernel rules of a rule
  that is created disabled (`CreateSyncsIff`), and enabling an enabled rule installs them twice
  (`SwitchSyncsIff`). An exact replay repairs the latter two, as both ids have rows (`ReappliedAt`).
- With a clock skew that is not positive the freshness check falls back to five minutes but the replay
  guard remembers nothing (`OncePerSignatureIff`). With a positive one a signed request passes twice exactly
  at the two end instants of its lifetime (`BothEndsPass`) or, clock readings reaching the guard out of
  order, past a purge at a later reading (`SignaturePassesTwiceIff`).
- Reporting a reused token, `Rotate` ignores a failed commit, so the family may live on (`ReusedMeansDeadIff`).
- `BuildUpdate` accepts data that names only the key column and produces an empty list of assignments
  (`NothingSetIff`).
- If the kept copy of the old Redis dump cannot be read back, the rollback leaves the new dump in place
  and does not say so (`AllOrNothing`). The copy is removed even when it could not be put back, so the old
  dump can be gone from the disk (`OldDumpSurvivesIff`).
- The comment on `consume` says that a panic counts as a failed attempt and is retried; `safeDeliver`
  recovers outside the retry loop, so a panic ends the delivery of that event (`PanicEndsDelivery`).
- The heading comment of `refresh.go` (lines 21-24) grants a grace window to a token presented again; the code revokes the family at once.

## Model

| member | source | states |
|---|---|---|
| ArchiveExtract.UndoReaches | internal/domain/filemanager/filemanager.go:367-376 | removing a record backwards, parents before children, skipping what is not removable, reaches any older tree that is closed under parents and misses exactly the recorded nodes |
| ArchiveExtract.UndoRestores | internal/domain/filemanager/filemanager.go:367-376 | rolling back leaves the old tree without the files that were overwritten; it leaves the old tree if and only if none was |
| ArchiveExtract.RecordingKeeps | internal/domain/filemanager/filemanager.go:747-784 | making a directory or opening a file and recording it keeps the record complete and parents before children |
| ArchiveExtract.LastEntryWins | internal/domain/filemanager/filemanager.go:355-442 | in the unpacked tree a file holds the bytes of the last entry that names it |
| ArchiveExtract.UnpackedIs | internal/domain/filemanager/filemanager.go:378-442 | the tree a fitting archive unpacks to has the old nodes, a directory for every directory entry and at every place above an entry, a file for every file entry, and nothing else; old nodes that no entry names as a file are as they were |
| ArchiveExtract.SoundIff | internal/domain/filemanager/filemanager.go:378-442 | when an archive is sound, from its entries and the old tree alone: allowed names and kinds, at most 10000 entries and 1073741824 bytes, everything inside the base, and no directory called for where a file is or is called for, in either order |
| ArchiveExtract.KindsOf | internal/domain/filemanager/filemanager.go:400-437 | which kinds become files, are refused, or are passed over, for each format |
| ArchiveExtract.SoundStep | internal/domain/filemanager/filemanager.go:378-442 | what one more entry takes to keep the archive sound: name, kind, count, place and bytes so far |
| ArchiveExtract.ReachIs | internal/domain/filemanager/filemanager.go:378-442 | an extraction gets no further than the first entry that spoils the archive |
| ArchiveExtract.FailureRestoresIff | internal/domain/filemanager/filemanager.go:367-376 | a failure in which nothing faults restores the tree if and only if no entry up to the spoiling one, that one included if it is opened, names an old file; and just then every failure does, whatever faults and however few entries were opened |
| ArchiveExtract.OverwrittenFileIsLost | internal/domain/filemanager/filemanager.go:367-442 | an archive that overwrites an old file and then holds a forbidden entry loses the file, nothing failing |
| ArchiveExtract.AnOldFileIsLost | internal/domain/filemanager/filemanager.go:367-442 | a concrete tree and archive for which it happens |
| ArchiveExtract.MadeDirsKeeps | internal/domain/filemanager/filemanager.go:747-784 | making the missing directories changes no existing node |
| ArchiveExtract.Disk.Stat | internal/domain/filemanager/filemanager.go:753-772 | the three outcomes of looking a path up; a file in the middle of the path is an error of its own |
| ArchiveExtract.Disk.Mkdir | internal/domain/filemanager/filemanager.go:775-782 | makes a directory in an existing one, reports one that exists, or changes nothing |
| ArchiveExtract.Disk.OpenTruncate | internal/domain/filemanager/filemanager.go:419-422 | creates or truncates a file in an existing directory, or changes nothing |
| ArchiveExtract.Disk.Append | internal/domain/filemanager/filemanager.go:797-804 | appends all bytes, or on a fault a part of them |
| ArchiveExtract.Disk.Remove | internal/domain/filemanager/filemanager.go:370-374 | removes a node without children, refuses any other |
| ArchiveExtract.Manager.MissingDirs | internal/domain/filemanager/filemanager.go:753-772 | finds exactly the missing ancestors, deepest first; fails only on a fault or a file in the way |
| ArchiveExtract.Manager.MkdirWithRecord | internal/domain/filemanager/filemanager.go:774-782 | records a directory exactly if it made it; nothing is newly overwritten |
| ArchiveExtract.Manager.MakeMissing | internal/domain/filemanager/filemanager.go:774-784 | makes the missing directories top down; fails only on a fault |
| ArchiveExtract.Manager.MkdirAllWithRecord | internal/domain/filemanager/filemanager.go:747-784 | the tree becomes that of mkdir -p inside the base, whatever fails the record stays complete; it fails only on a fault, a file in the way or a path outside the base |
| ArchiveExtract.Manager.OpenWithRecord | internal/domain/filemanager/filemanager.go:419-423 | the file is empty and recorded; at most this file is newly overwritten |
| ArchiveExtract.Manager.CopyLimited | internal/domain/filemanager/filemanager.go:425-437 | the file gets exactly the entry's bytes; the shared counter counts what was written and stays in the limit; it fails only on a fault or when the limit would be passed |
| ArchiveExtract.Manager.ExtractFile | internal/domain/filemanager/filemanager.go:415-437 | directories, file and content of one entry; its file is opened exactly if nothing faults and it fits, and then an old one is newly overwritten |
| ArchiveExtract.Manager.PlaceZip | internal/domain/filemanager/filemanager.go:408-437 | one zip entry changes the tree as specified, or the failure has a cause |
| ArchiveExtract.Manager.PlaceTarGz | internal/domain/filemanager/filemanager.go:508-534 | one tar entry by its kind, special kinds skipped |
| ArchiveExtract.Manager.UnpackZip | internal/domain/filemanager/filemanager.go:378-441 | success means a sound archive and the tree it unpacks to; the record overwrites exactly the old files among the targets of the entries opened, and how many these are without a fault is determined |
| ArchiveExtract.Manager.UnpackTarGz | internal/domain/filemanager/filemanager.go:474-538 | the same for tar archives, whose headers may be unreadable |
| ArchiveExtract.Manager.RollBack | internal/domain/filemanager/filemanager.go:367-376 | unless a removal faults, the tree becomes the undone one; no unrecorded node is touched |
| ArchiveExtract.Manager.Extract | internal/domain/filemanager/filemanager.go:355-442 | when nothing faults it unpacks the whole archive if and only if the archive is sound; a failure leaves the old tree minus the old files among the targets of the entries opened, a number the caller can compute; every failure restores the tree if no entry that can be opened names an old file, and one without a fault if and only if none does; no other node is lost and the bytes written stay in the limit |
| EventBus.RunKeepsInv | internal/plugin/events.go:72-198 | every interleaving of subscribing, publishing, consuming and retrying keeps the invariant |
| EventBus.DeliveryInOrder | internal/plugin/events.go:122-165 | in every reachable state the published events are those gone, then those queued, then the one being sent; what was taken plus what is queued is an order-preserving, duplicate-free subsequence of what was published |
| EventBus.DropsOnlyOnOverflow | internal/plugin/events.go:135-151 | an event is dropped only in a publish that found the queue full |
| EventBus.OneDropPerPublish | internal/plugin/events.go:135-151 | one publish drops at most one event, and later publishes drop later |
| EventBus.EveryEventIsCounted | internal/plugin/events.go:135-151 | published = taken + dropped + queued + being sent, in every reachable state |
| EventBus.SecondSendNeverFails | internal/plugin/events.go:139-149 | the last default branch is unreachable: the second attempt finds room and the event ends up last in the queue |
| EventBus.OneRunOfCallsPerEvent | internal/plugin/events.go:156-198 | all handler calls for one taken event are consecutive and at most five |
| EventBus.OpenSubscriptionsRetry | internal/plugin/events.go:177-198 | while the subscription is open, a finished event was called until a call did not fail, or five times |
| EventBus.PanicEndsDelivery | internal/plugin/events.go:168-198 | a finished event of an open subscription was called in vain up to its last call, and ended before the fifth call without success if and only if a call panicked |
| EventBus.DeliverWithRetry | internal/plugin/events.go:177-198 | the number of attempts and the pauses 1, 4, 16, 64 seconds between them |
| EventBus.SubscribeOpens | internal/plugin/events.go:72-104 | exactly one subscription is opened, under a new handle, exactly the old one found is closed, and the new handle is registered for exactly the listed events |
| EventBus.OldOfIsFirst | internal/plugin/events.go:79-87 | the old subscription is that of the first listed event that has one |
| EventBus.UnsubscribeCloses | internal/plugin/events.go:107-119 | exactly the id's subscriptions are closed and the id is struck from the registry |
| EventBus.UnsubscribedHearNothing | internal/plugin/events.go:107-153 | after Unsubscribe nothing published in any later run reaches the closed subscriptions, subscribing again included |
| EventBus.Subscriber.TrySend | internal/plugin/events.go:137-138 | a send that does not block succeeds exactly if there is room |
| EventBus.Subscriber.DrainOldest | internal/plugin/events.go:141-144 | drops the then-oldest event, if there is one |
| EventBus.Subscriber.Offer | internal/plugin/events.go:135-151 | what one publish does to one queue |
| EventBus.OfferIsThePublisherAlone | internal/plugin/events.go:122-153 | the publisher's micro-steps, uninterrupted, are Offer |
| EventBus.EveryPublishReachesAll | internal/plugin/events.go:122-153 | over any run and whatever happens meanwhile: once the publisher is idle again, exactly the subscriptions registered for the event were sent it, and each has it queued, taken or dropped |
| EventBus.PublishIsPossible | internal/plugin/events.go:133-135 | whenever the mutex is free, every event can be published |
| EventBus.PublisherFinishes | internal/plugin/events.go:133-153 | the publisher, once it has begun, ends by its own steps |
| EventBus.QueuedEventsAreDelivered | internal/plugin/events.go:156-166 | left alone, a consumer takes all queued events, in order, and is done with each, whatever its handler does |
| EventBus.ClosedConsumersCanQuit | internal/plugin/events.go:156-198 | the consumer of a closed subscription can end after at most the call it is at |
| EventBus.ConsumersEndOnlyWhenClosed | internal/plugin/events.go:156-166 | over every run a consumer ends only if its subscription is closed, and then takes and calls nothing more |
| RefreshTokens.RunKeepsInv | internal/domain/auth/refresh.go:57-199 | every run of the four operations with fresh hashes keeps the table and the chains in agreement |
| RefreshTokens.RotationGrantedIff | internal/domain/auth/refresh.go:77-140 | a rotation is granted if and only if the presented token is the newest of a live family, on its own device, in time, and the transaction commits |
| RefreshTokens.AnswersAre | internal/domain/auth/refresh.go:77-140 | which answer a presented token gets, for every history of its family and every way the database may take it |
| RefreshTokens.HandedOutTokensAreGood | internal/domain/auth/refresh.go:57-199 | over any run, clean-ups included: a token handed out is granted on its own device at every instant of its 7776000 seconds and at none after, as long as it was not rotated and its family not revoked |
| RefreshTokens.FamilyRevokedIff | internal/domain/auth/refresh.go:119-171 | a family is revoked by a logout of its own user and device or by the reuse of one of its tokens, and by nothing else |
| RefreshTokens.CleanupRemovesIff | internal/domain/auth/refresh.go:174-184 | a row is removed if and only if 604800 seconds have passed since it expired or was revoked; other rows stay as they are |
| RefreshTokens.EachTokenRotatesOnce | internal/domain/auth/refresh.go:77-140 | over any run a token rotates successfully at most once |
| RefreshTokens.ReuseEndsTheFamily | internal/domain/auth/refresh.go:119-127 | presenting a rotated, unexpired token from its own device is refused, and every token of that family is refused ever after |
| RefreshTokens.LogoutEndsTheFamilies | internal/domain/auth/refresh.go:160-171 | after a logout every token of the families concerned is refused ever after |
| RefreshTokens.RevokedFamilyStaysDead | internal/domain/auth/refresh.go:77-140 | a revoked family never rotates or grows again |
| RefreshTokens.FamiliesAreChains | internal/domain/auth/refresh.go:57-140 | a family has one user and device, at most one unrotated row, distinct predecessors, and is revoked as a whole or not at all |
| RefreshTokens.PredecessorsAreRotatedMembers | internal/domain/auth/refresh.go:186-199 | a row's predecessor, if still there, is a rotated member of the same family |
| RefreshTokens.ReusedMeansDeadIff | internal/domain/auth/refresh.go:119-125 | the answer that a token was reused means a dead family if and only if the commit, whose failure the code ignores, went through |
| RefreshTokens.ChainsGrowOverRuns | internal/domain/auth/refresh.go:57-199 | chains only grow; revoked ones do not |
| RefreshTokens.RefreshService.Issue | internal/domain/auth/refresh.go:57-74 | inserts one live row of a new family, or leaves the table |
| RefreshTokens.RefreshService.Rotate | internal/domain/auth/refresh.go:77-140 | answer and table after a rotation for every way the database may take it: a failed commit makes a new pair an error, but goes unnoticed in the reuse branch |
| RefreshTokens.RefreshService.RevokeFamily | internal/domain/auth/refresh.go:160-171 | revokes exactly the live rows of the user, and of the device if one is given |
| RefreshTokens.RefreshService.CleanupExpired | internal/domain/auth/refresh.go:174-184 | deletes exactly the rows past their retention |
| Sessions.SweepIsUnobservable | internal/domain/auth/session.go:216-240 | two runs that differ only in their sweeps answer every validity question alike; removal by id is allowed as long as no dead session was replaced under a new id |
| Sessions.SweptRunAnswersAlike | internal/domain/auth/session.go:216-266 | a swept store and the unswept one it is covered by answer alike |
| Sessions.TokensAreKeys | internal/domain/auth/session.go:56-156 | every row is stored under its own token, over every run |
| Sessions.ValidIff | internal/domain/auth/session.go:56-296 | over every run a session is valid if and only if its token was signed in or put in place and not removed, moved or swept since, it has not expired, and it is of type "mobile" or "mobile-direct", or the idle timeout is off, or it was last active no longer ago than that |
| Sessions.SweepBeforeUpdateIff | internal/domain/auth/session.go:77-86 | a sweep before UpdateActivity is unobservable if and only if the row had not gone idle |
| Sessions.SweepBeforeReplaceIff | internal/domain/auth/session.go:109-139 | a sweep just before ReplaceSession can be seen by no later run if and only if the row is absent, another user's or alive, or the types agree on the mobile type and, with the timeout on, on the exemption; where sessions may still be removed by id, the ids must agree too |
| Sessions.SweepBeforeReplaceAskedIff | internal/domain/auth/session.go:109-139 | questions alone show it if and only if exactly one of the types is exempt, the timeout is on and the new row outlives it |
| Sessions.TellApart | internal/domain/auth/session.go:143-188 | two rows of one user whose types or ids differ are told apart by a later run |
| Sessions.SessionService.CreateSession | internal/domain/auth/session.go:56-75 | adds exactly one row |
| Sessions.SessionService.UpdateActivity | internal/domain/auth/session.go:77-86 | moves the activity time of exactly this row |
| Sessions.SessionService.EditInPlace | internal/domain/auth/session.go:113-123 | the session object is edited and moved to its new key |
| Sessions.SessionService.ReplaceSession | internal/domain/auth/session.go:109-139 | replaces the user's row in place, keeping id and client type, or creates one |
| Sessions.SessionService.TouchMobileSessions | internal/domain/auth/session.go:143-156 | prolongs exactly the user's live mobile rows, never shortening one |
| Sessions.SessionService.CleanupExpiredSessions | internal/domain/auth/session.go:216-240 | removes exactly the rows that are not live |
| Sessions.SessionService.RemoveOtherSessionsFilter | internal/domain/auth/session.go:279-296 | removes exactly the user's rows outside the kept ones |
| Sessions.SessionService.IsSessionValid | internal/domain/auth/session.go:246-266 | true exactly for a row that is there and live |
| Nft.TagHitsOneId | internal/domain/firewall/port_acl.go:126-154 | searching a rule's quoted comment for a tag hits one id only, so 12 is not found by 2 |
| Nft.ReplaySyncsIff | internal/domain/firewall/port_acl.go:85-99 | dropping what the ids own and appending all rules leaves exactly these as tagged rules if and only if there was no orphan; foreign rules stay |
| Nft.RemovingByTag | internal/domain/firewall/port_acl.go:126-154 | deleting by tag and selecting tagged rules commute; foreign rules are not concerned |
| Nft.RemovedOneMore | internal/domain/firewall/port_acl.go:90-93 | removing id after id removes what any of them owns |
| Nft.Chain.Add | internal/domain/firewall/port_acl.go:103-122 | appends one rule with a new handle, or nothing |
| Nft.Chain.Delete | internal/domain/firewall/port_acl.go:146-150 | deletes the rule with the handle, or nothing |
| Nft.Chain.RemoveTagged | internal/domain/firewall/port_acl.go:126-154 | without a fault exactly the tagged rules go; with one, some of them, and no other rule |
| Nft.ThinnedSelects | internal/domain/firewall/port_acl.go:126-154 | for a selection free of the tags a partial removal makes no difference |
| Nft.Chain.RemoveLine | internal/domain/firewall/port_acl.go:137-152 | one listed line is deleted exactly if it carries a tag |
| PortAcl.TagsFindOneRow | internal/domain/firewall/port_acl.go:103-154 | the two tags of a row find the rules of that row and of no other |
| PortAcl.ReapplySyncsIff | internal/domain/firewall/port_acl.go:85-99 | after ReapplyAll the tagged rules are exactly the generated ones, in order, if and only if no tagged rule was an orphan; foreign rules are untouched |
| PortAcl.FirstExposeKeepsSync | internal/domain/firewall/port_acl.go:46-63 | a first Expose keeps table and chain in agreement, foreign rules untouched |
| PortAcl.RevokeKeepsSync | internal/domain/firewall/port_acl.go:66-77 | so does Revoke |
| PortAcl.ManagedPortVerdict | internal/domain/firewall/port_acl.go:103-122 | the first-match verdict for a managed port is accept if the source lies in one of its networks, else drop |
| PortAcl.UnmanagedPortVerdict | internal/domain/firewall/port_acl.go:103-122 | a port that is not managed, or not any more, is decided by no rule of the service |
| PortAcl.ExposedPortVerdict | internal/domain/firewall/port_acl.go:46-182 | a port exposed for the first time is open to exactly the sources that were submitted |
| PortAcl.ListAdmits | internal/domain/firewall/port_acl.go:158-182 | normalising the sources and dropping repetitions changes nobody's admission |
| PortAcl.NetworkIsABlock | internal/domain/firewall/port_acl.go:158-182 | a network is the block of addresses that share its first bits, a single address one of one |
| PortAcl.RepeatedExposeChangesNoVerdict | internal/domain/firewall/port_acl.go:46-63 | however often a managed port is exposed again, the verdicts are those of the old networks |
| PortAcl.RepeatedExposeWorksIff | internal/domain/firewall/port_acl.go:46-63 | the last of any number of repeated Exposes takes effect if and only if its networks admit the same sources as the first ones |
| PortAcl.RunsKeepInv | internal/domain/firewall/port_acl.go:46-154 | every run, with any faults, keeps unique rows, increasing ids and no tags of ids still to come |
| PortAcl.OrphansAreMade | internal/domain/firewall/port_acl.go:66-77 | a step makes an orphan if and only if it is a Revoke that deletes its row although a rule of the row was not removed |
| PortAcl.OrphansStay | internal/domain/firewall/port_acl.go:85-99 | once there, an orphan stays whatever is done |
| PortAcl.ReapplySyncsUnlessOrphaned | internal/domain/firewall/port_acl.go:66-99 | after any run with any faults an exact replay brings table and chain to agree if and only if no Revoke of the run deleted its row while a rule of the row was left |
| PortAcl.FailedRemovalLeavesOrphans | internal/domain/firewall/port_acl.go:66-99 | a concrete Revoke after which no replay syncs |
| PortAcl.FullReplaySyncsIff | internal/domain/firewall/port_acl.go:85-99 | a replay that applied every row brings agreement if and only if its removals left no tagged rule, that is, if there was no orphan and every removal was exact |
| PortAcl.ReplayOutcomeIff | internal/domain/firewall/port_acl.go:85-99 | a replay that stopped early brings it if and only if it laid nothing and there was agreement without |
| PortAcl.SilentReplayMayDouble | internal/domain/firewall/port_acl.go:85-99 | so a replay that reports no error need not be exact: with failed removals the rules are there twice |
| PortAcl.ReplayKeepsSyncIff | internal/domain/firewall/port_acl.go:85-99 | from agreement, a replay keeps it if and only if it does nothing or is exact |
| PortAcl.RevokeSyncsIff | internal/domain/firewall/port_acl.go:66-77 | a Revoke keeps the agreement if and only if row and rules both go or both stay |
| PortAcl.FirstExposeSyncsIff | internal/domain/firewall/port_acl.go:46-63 | a first Expose keeps it if and only if nothing was written or all rules were laid down |
| PortAcl.RepeatedExposeSyncsIff | internal/domain/firewall/port_acl.go:46-63 | a repeated one if and only if it changes nothing |
| PortAcl.StepSyncsIff | internal/domain/firewall/port_acl.go:46-99 | whatever fails, a step keeps the agreement if and only if it is agreeable: a first Expose in full, a repeated one without effect, a Revoke of row and rules together, an exact replay, or nothing done |
| PortAcl.RunsStaySyncedIff | internal/domain/firewall/port_acl.go:46-99 | table and chain agree throughout a run, faults included, if and only if every step is agreeable |
| PortAcl.RunsKeepForeign | internal/domain/firewall/port_acl.go:46-154 | over every run, whatever fails, the rules of others stay as they are |
| PortAcl.NormalizeCidrs | internal/domain/firewall/port_acl.go:158-182 | fails on an unreadable source or none; otherwise the readable ones, normalised, each at its first occurrence |
| PortAcl.PortAclService.Apply | internal/domain/firewall/port_acl.go:103-122 | appends the rules of the row in order, accepts first, drop last, up to the first refusal |
| PortAcl.PortAclService.Remove | internal/domain/firewall/port_acl.go:126-154 | removes exactly the tagged rules of the id, or with a fault some of them |
| PortAcl.PortAclService.Expose | internal/domain/firewall/port_acl.go:46-63 | refused input changes nothing; valid input is exposed in full exactly if nothing fails; otherwise the row may be written and a part of its rules laid |
| PortAcl.PortAclService.Revoke | internal/domain/firewall/port_acl.go:66-77 | what was removed and whether the row went, for every fault; success does not speak of the removal |
| PortAcl.PortAclService.ReapplyAll | internal/domain/firewall/port_acl.go:85-99 | removals, then rows applied up to the first refusal; exact if nothing fails; success means that all rows were applied |
| PortAcl.ExposeKeepsTable | internal/domain/firewall/port_acl_repo.go:71-95 | Upsert keeps (port, protocol) unique and ids stable |
| PortAcl.RevokeKeepsTable | internal/domain/firewall/port_acl_repo.go:98-101 | Delete takes out exactly the row of the port and protocol |
| PortAcl.FindFinds | internal/domain/firewall/port_acl_repo.go:58-68 | Get finds the row of the port and protocol if and only if there is one |
| PortSpan.ParseIff | internal/domain/firewall/port_forward.go:97-115 | the parser accepts exactly one port or a-b with a < b inside 1..65535, white space around it aside |
| PortSpan.ParseOfPrinted | internal/domain/firewall/port_forward.go:97-115 | printing a span and parsing it gives the span |
| PortSpan.OverlapIffShared | internal/domain/firewall/port_forward.go:169-171 | the interval test is equivalent to sharing a port |
| PortSpan.TrimCutsSpace | internal/domain/firewall/port_forward.go:98-98 | trimming cuts white space off both ends, as much as there is |
| PortForward.ClashIffShared | internal/domain/firewall/port_forward.go:175-195 | two rules conflict if and only if some packet is meant for both |
| PortForward.AtMostOneMatches | internal/domain/firewall/port_forward.go:175-195 | without conflicts at most one enabled rule is meant for a packet |
| PortForward.UpdateKeepsConflictFree | internal/domain/firewall/port_forward.go:237-262 | UpdatePortForward keeps the enabled rows free of conflicts under any fault |
| PortForward.SetEnabledKeepsConflictFree | internal/domain/firewall/port_forward.go:271-294 | so does SetPortForwardEnabled |
| PortForward.DeleteKeepsConflictFree | internal/domain/firewall/port_forward.go:265-268 | so does DeletePortForward |
| PortForward.CreateKeepsConflictFreeIff | internal/domain/firewall/port_forward.go:218-234 | CreatePortForward does if and only if the submitted id does not hide an enabled row the new rule clashes with |
| PortForward.ResubmittedRowClashes | internal/domain/firewall/port_forward.go:175-234 | submitting an enabled row with its id stores it twice |
| PortForward.SubmittedIdBreaksConflictFreedom | internal/domain/firewall/port_forward.go:175-234 | a concrete table and rule for which it happens |
| PortForward.RunsStayConflictFree | internal/domain/firewall/port_forward.go:218-294 | over every run with any faults the enabled rows stay conflict free, rules being created without an id |
| PortForward.NormalIsStable | internal/domain/firewall/port_forward.go:118-166 | a validated rule is in normal form, so validating a stored row again changes nothing |
| PortForward.AdmittedIff | internal/domain/firewall/port_forward.go:118-195 | a rule is admitted if and only if it is well formed once trimmed, does not listen on a port of the panel, and no packet is meant for both it and an enabled row with another id |
| PortForward.LowerCases | internal/domain/firewall/port_forward.go:119-122 | the protocol is taken in either case |
| PortForward.RunsStoreWellFormedRows | internal/domain/firewall/port_forward.go:118-294 | over every run with any faults every stored row has a known protocol, parsable spans of equal length, an IPv4 destination, a readable source and an interface name of the kernel |
| PortForward.CreateAddsARow | internal/domain/firewall/port_forward.go:218-234 | a created rule gets an id not used before; no other row changes |
| PortForward.UpdateReplacesTheRow | internal/domain/firewall/port_forward.go:237-262 | the row of the id becomes the trimmed rule; no other row changes |
| PortForward.SwitchChangesTheRow | internal/domain/firewall/port_forward.go:271-294 | only the switch of the row of the id changes |
| PortForward.DeleteTakesTheRow | internal/domain/firewall/port_forward.go:265-268 | only the row of the id goes |
| ForwardChains.TagsFindOneRow | internal/domain/firewall/port_forward.go:424-449 | the tags of a rule find its own kernel rules and no others in all three chains |
| ForwardChains.CreateSyncsIff | internal/domain/firewall/port_forward.go:218-234 | creating a rule keeps chains and table in agreement if and only if it was refused or enabled |
| ForwardChains.UpdateKeepsSync | internal/domain/firewall/port_forward.go:237-262 | updating keeps every id's kernel rules equal to those of its enabled row |
| ForwardChains.SwitchSyncsIff | internal/domain/firewall/port_forward.go:271-294 | switching keeps it if and only if it does not switch an enabled, admitted rule on again |
| ForwardChains.DeleteKeepsSync | internal/domain/firewall/port_forward.go:265-268 | deleting keeps it |
| ForwardChains.ReappliedAt | internal/domain/firewall/port_forward.go:298-314 | after a replay every id of the table has exactly its rules, whatever was there before |
| ForwardChains.ReapplySyncsIff | internal/domain/firewall/port_forward.go:298-314 | a replay makes table and chains agree if and only if no rule has an orphaned tag |
| ForwardChains.ReapplyInOrder | internal/domain/firewall/port_forward.go:298-314 | the tagged rules then stand in the order of the enabled rows; foreign rules are as before |
| ForwardChains.WhereAPacketGoes | internal/domain/firewall/port_forward.go:353-404 | a packet meant for an enabled rule is sent, exactly if its source is admitted, to the rule's destination: to its own port if none is given, else to the port as far into the destination's span as its own is into the one listened on; whatever the order of the chain |
| ForwardChains.ThePacketIsLetThrough | internal/domain/firewall/port_forward.go:386-404 | the filter chain has a rule that accepts the redirected packet, and the postrouting chain one that masquerades it if and only if the destination is private |
| ForwardChains.RowsRulesHitItsGoals | internal/domain/firewall/port_forward.go:386-413 | the accept and masquerade rules of a row hit exactly the packets on their way from its listening ports to where it sends them |
| ForwardChains.TracesStoreWellFormedRows | internal/domain/firewall/port_forward.go:118-314 | over every run the rows the chains are made from are well formed |
| ForwardChains.OtherPacketsStay | internal/domain/firewall/port_forward.go:363-404 | a packet no enabled rule is meant for is not redirected |
| ForwardChains.StepSyncsIff | internal/domain/firewall/port_forward.go:218-294 | a step in which nothing fails keeps the agreement if and only if it is agreeable |
| ForwardChains.CleanStepIsNext | internal/domain/firewall/port_forward.go:218-294 | and it is one of the outcomes the runs range over |
| ForwardChains.NextOwn | internal/domain/firewall/port_forward.go:218-314 | whatever fails, a step changes the kernel rules of the ids it concerns and of no others |
| ForwardChains.StepOrphansIff | internal/domain/firewall/port_forward.go:218-294 | an id is orphaned by a step exactly if a Create was taken back after its first rule, or its row was deleted while a rule was not removed |
| ForwardChains.TracesKeepInv | internal/domain/firewall/port_forward.go:218-314 | every run with any faults keeps one tag per rule and no tags of ids still to come |
| ForwardChains.ReplaySyncsIffSwept | internal/domain/firewall/port_forward.go:218-314 | over every run an exact replay at its end brings agreement if and only if every orphaned id was swept by a later Delete of it |
| ForwardChains.ReplaySyncsUnlessOrphaned | internal/domain/firewall/port_forward.go:218-314 | rules being deleted by the ids of rows, it does if and only if no step left an orphan |
| ForwardChains.TakenBackCreateLeavesARule | internal/domain/firewall/port_forward.go:218-234 | a concrete Create, refused after its first rule, whose rule survives every replay |
| ForwardChains.ReplaysAreTurns | internal/domain/firewall/port_forward.go:298-314 | a replay is one turn per row: some of the row's rules removed, some of the wanted ones added |
| ForwardChains.ReplayOutcomeIff | internal/domain/firewall/port_forward.go:298-314 | whatever fails, a replay ends in agreement if and only if there was no orphan and every turn was right: its removal left nothing where a rule was added, and just the wanted rule elsewhere |
| ForwardChains.FullReplaySyncsIff | internal/domain/firewall/port_forward.go:298-314 | one that applied every row does if and only if there was no orphan and every removal took away all rules of its row |
| ForwardChains.SilentReplayMayDouble | internal/domain/firewall/port_forward.go:298-314 | so a replay without an error need not be exact: with failed removals every rule is there twice |
| ForwardChains.OwnIdDecides | internal/domain/firewall/port_forward.go:218-294 | whatever fails, table and chains agree after a step if and only if the rules of its own id are right |
| ForwardChains.NextSyncsIff | internal/domain/firewall/port_forward.go:218-314 | by operation and fault, when a step keeps the agreement: without a fault if and only if it is exact and agreeable; a Create that failed at its rules if and only if none was added and the row is gone or disabled; a replay by its turns; any other failed step if and only if it changed nothing, save an Update that failed at its new rules, where leftovers may coincide with them |
| ForwardChains.RunsStaySyncedIff | internal/domain/firewall/port_forward.go:218-314 | table and chains agree throughout a run, whatever fails in it, if and only if every step is right in this sense |
| PortForwarding.PortForwardService.CheckConflict | internal/domain/firewall/port_forward.go:175-195 | reports exactly whether an enabled row with another id clashes |
| PortForwarding.PortForwardService.Apply | internal/domain/firewall/port_forward.go:363-404 | adds the two or three kernel rules of the row in order, up to the first refusal |
| PortForwarding.PortForwardService.Remove | internal/domain/firewall/port_forward.go:424-449 | removes exactly the id's rules from the three chains, or with a fault some of them |
| PortForwarding.PortForwardService.Create | internal/domain/firewall/port_forward.go:218-234 | table and chains under every fault, the rules left by a Create taken back included; without a fault the clean outcome; foreign rules always |
| PortForwarding.PortForwardService.Update | internal/domain/firewall/port_forward.go:237-262 | the same for an update |
| PortForwarding.PortForwardService.SetEnabled | internal/domain/firewall/port_forward.go:271-294 | the same for switching |
| PortForwarding.PortForwardService.Delete | internal/domain/firewall/port_forward.go:265-268 | the same for deleting, where the row may go and rules stay |
| PortForwarding.PortForwardService.ReapplyAll | internal/domain/firewall/port_forward.go:298-314 | removes and applies row by row, in turns it reports; success means that every enabled row was applied; without a fault the chains are the replayed ones |
| PortForwarding.NextKeepsForeign | internal/domain/firewall/port_forward.go:363-449 | no step, whatever fails in it, touches a rule of anyone else |
| PortForwarding.ReplayStep | internal/domain/firewall/port_forward.go:304-312 | replaying one more row in turn extends the replay of all rows before it |
| ReplayGuard.MapAnswersAsHistory | internal/mobiledirect/device.go:187-210 | for calls in order of time the purged map answers as the unbounded record of accepted keys |
| ReplayGuard.ReplayPassesIff | internal/mobiledirect/device.go:187-210 | for calls in any order of time a key is refused if and only if some use less than the ttl ago was not purged since, so a replay passes exactly if all such uses fell to a purge at a later reading |
| ReplayGuard.LatePurgeLetsAReplayPass | internal/mobiledirect/device.go:195-210 | a concrete log in which it does |
| ReplayGuard.Guard.HasSeen | internal/mobiledirect/device.go:187-192 | true exactly if the key's last use has not expired and was not purged, for calls in any order |
| ReplayGuard.Guard.SeenBefore | internal/mobiledirect/device.go:195-210 | the same answer, and the key is recorded exactly if it was not a replay, purge included |
| ReplayGuard.Guard.Purge | internal/mobiledirect/device.go:201-207 | deletes exactly the entries that have expired |
| ReplayGuard.DeviceAuth | internal/mobiledirect/device.go:256-331 | passes exactly a genuine, fresh request whose key the guard does not hold, for calls in any order |
| ReplayGuard.FreshIff | internal/mobiledirect/device.go:272-281 | a request is fresh if signed at most the configured skew before or after, or 300 seconds if none is configured |
| ReplayGuard.Serve | internal/mobiledirect/device.go:256-331 | what passes over any run in any order of time; in order of time the answers are those of the record |
| ReplayGuard.KeyTellsBoth | internal/mobiledirect/device.go:301-304 | the joined key tells device and nonce |
| ReplayGuard.AcceptancesAreApart | internal/mobiledirect/device.go:195-210 | two acceptances of one key are at least twice the configured skew apart |
| ReplayGuard.OncePerSignatureIff | internal/mobiledirect/device.go:272-281 | one signed request is accepted at most once, save at the two ends of its lifetime, if and only if the configured skew is positive |
| ReplayGuard.BothEndsPass | internal/mobiledirect/device.go:272-281 | at the two ends it is accepted twice |
| ReplayGuard.PassesIff | internal/mobiledirect/device.go:256-331 | in any order of time a genuine, fresh request passes if and only if every earlier one of its device and nonce that passed is twice the skew older or was forgotten to a purge at a later reading |
| ReplayGuard.SignaturePassesTwiceIff | internal/mobiledirect/device.go:256-331 | so one signed request passes a second time if and only if it does so at the two ends of its lifetime or past such a purge, which takes an earlier request with a later reading |
| ReplayGuard.RepeatPasses | internal/mobiledirect/server.go:54-54 | with a skew that is not positive the guard's ttl lets a request pass twice at once |
| AuditWriter.RunsKeepInv | internal/domain/audit/service.go:46-106 | every interleaving of enqueuing, consuming, the timer and closing keeps the invariant |
| AuditWriter.NothingLost | internal/domain/audit/service.go:46-106 | flushed, then batched, then queued entries are the accepted ones in order |
| AuditWriter.DroppedIff | internal/domain/audit/service.go:175-181 | an entry is dropped if and only if a thousand are waiting |
| AuditWriter.FullBatchesGoAtOnce | internal/domain/audit/service.go:53-59 | a batch is flushed when it has a hundred entries and, the timer and closing aside, no sooner |
| AuditWriter.EverythingGetsWritten | internal/domain/audit/service.go:46-65 | left alone, the consumer writes everything accepted, in order |
| AuditWriter.BatchSizes | internal/domain/audit/service.go:46-81 | batches hold 1 to 100 entries, save that of the shutdown, which may be larger |
| AuditWriter.ClosedMeansWritten | internal/domain/audit/service.go:103-106 | for every run split at the call of close: once close has returned, what was accepted before the call has been handed over, in order |
| AuditWriter.ReturnedWasCalled | internal/domain/audit/service.go:103-106 | a run in which close was called splits so |
| AuditWriter.AcceptedOnlyGrows | internal/domain/audit/service.go:175-181 | what was accepted stays accepted over every run |
| AuditWriter.CloseEnds | internal/domain/audit/service.go:67-80 | the consumer, left alone after close, finishes and has written everything accepted before its last look at the channel |
| AuditWriter.Writer.OnClose | internal/domain/audit/service.go:103-106 | close is called: the consumer may see it, and what was accepted so far is noted |
| AuditWriter.Writer.Enqueue | internal/domain/audit/service.go:175-181 | appends to the channel or, if it is full, drops the entry |
| AuditWriter.Writer.Append | internal/domain/audit/service.go:54-54 | the batch grows by the entry in reused or newly allocated storage |
| AuditWriter.Writer.OnEntry | internal/domain/audit/service.go:53-59 | takes the oldest entry; a batch of 100 is to be flushed |
| AuditWriter.Writer.OnTimer | internal/domain/audit/service.go:60-65 | a batch that is not empty is to be flushed |
| AuditWriter.Writer.OnFlush | internal/domain/audit/service.go:83-101 | hands over exactly the entries of the batch, copied, and empties it |
| AuditWriter.Writer.CopyOut | internal/domain/audit/service.go:84-97 | copies every field of every entry to its place |
| AuditWriter.Writer.DrainChannel | internal/domain/audit/service.go:67-71 | takes all entries left in the channel |
| AuditWriter.Writer.OnDone | internal/domain/audit/service.go:66-79 | drains, flushes the rest and finishes |
| SqlEscape.EscapeString | internal/domain/database/sql_builder.go:48-64 | the passes equal one character-wise escaping, for each engine |
| SqlEscape.EscapeMySql | internal/domain/database/sql_builder.go:51-58 | the seven passes in their order equal the character-wise map |
| SqlEscape.NextPass | internal/domain/database/sql_builder.go:51-58 | a pass leaves alone what earlier passes wrote |
| SqlEscape.LexEscaped | internal/domain/database/sql_builder.go:48-64 | the server reads escaped text as the text it was made from, whatever follows |
| SqlEscape.LiteralReadsBackIff | internal/domain/database/sql_builder.go:641-641 | a quoted literal is read back as its value and the reading ends at its closing quote, if and only if no quote follows |
| SqlEscape.EscapingIsInjective | internal/domain/database/sql_builder.go:48-64 | different values have different literals |
| SqlEscape.IdentifierReadsBackIff | internal/domain/database/sql_builder.go:27-36 | the same for quoted identifiers |
| SqlBuilder.InsertAgrees | internal/domain/database/sql_builder.go:70-150 | both forms fail alike; placeholders are numbered 1..n as the arguments; filling them gives the rendered INSERT, skipped columns and the all-defaults form included |
| SqlBuilder.UpdateAgrees | internal/domain/database/sql_builder.go:154-212 | the same for UPDATE |
| SqlBuilder.DeleteAgrees | internal/domain/database/sql_builder.go:216-245 | the same for DELETE |
| SqlBuilder.NothingSetIff | internal/domain/database/sql_builder.go:169-181 | the list of assignments is empty if and only if the data names only the key |
| SqlBuilder.ArgumentReadsBack | internal/domain/database/sql_builder.go:634-665 | a string argument in the rendered statement is read by the server as the string that would be bound, and the rest of the statement follows |
| SqlBuilder.InsertIsFenced | internal/domain/database/sql_builder.go:95-102 | in INSERT every value is followed by text that ends it |
| SqlBuilder.UpdateIsFenced | internal/domain/database/sql_builder.go:176-181 | so in UPDATE |
| SqlBuilder.DeleteIsFenced | internal/domain/database/sql_builder.go:226-230 | so in DELETE |
| SqlTokens.InsertReadsRight | internal/domain/database/sql_builder.go:70-141 | the text handed to the driver holds exactly the placeholders 1 to n in order, and the rendered text reads token for token as the prepared one with the values in their places, a string as one literal with this very value |
| SqlTokens.UpdateReadsRight | internal/domain/database/sql_builder.go:154-212 | the same for UPDATE, whatever the column names |
| SqlTokens.DeleteReadsRight | internal/domain/database/sql_builder.go:216-245 | the same for DELETE |
| SqlTokens.SqlLexes | internal/domain/database/sql_builder.go:38-45 | a prepared text reads as its pieces, each hole as its placeholder |
| SqlTokens.FillLexes | internal/domain/database/sql_builder.go:634-665 | a rendered text reads as the same pieces, each hole as its value |
| SqlMeaning.InsertMeans | internal/domain/database/sql_builder.go:70-150 | what an INSERT says, token by token: into this table, these columns, the i-th value into the i-th of them; the i-th argument is that column's value |
| SqlMeaning.UpdateMeans | internal/domain/database/sql_builder.go:154-212 | what an UPDATE says: in this table, to each column but the key its own value, where the key has the given one |
| SqlMeaning.DeleteMeans | internal/domain/database/sql_builder.go:216-245 | what a DELETE says: from this table, where the key has the given value |
| SqlMeaning.KeptColumns | internal/domain/database/sql_builder.go:82-93 | an INSERT leaves out exactly the auto-increment columns that are empty |
| SqlMeaning.RefusedIff | internal/domain/database/sql_builder.go:70-245 | when each statement is refused |
| SqlMeaning.NamesIff | internal/domain/database/validation.go:29-54 | which table and column names are let through |
| SqlMeaning.ValuesPrint | internal/domain/database/sql_builder.go:634-665 | how values other than strings are written |
| SqlBuilder.SqlBuilder.IsSkipped | internal/domain/database/sql_builder.go:83-89 | skips exactly the empty auto-increment columns |
| SqlBuilder.SqlBuilder.CheckColumns | internal/domain/database/sql_builder.go:74-78 | reports the first column with a bad name |
| SqlBuilder.SqlBuilder.BuildInsert | internal/domain/database/sql_builder.go:70-102 | the rendered INSERT or the error |
| SqlBuilder.SqlBuilder.BuildInsertParams | internal/domain/database/sql_builder.go:107-141 | the prepared INSERT or the error |
| SqlBuilder.SqlBuilder.BuildUpdate | internal/domain/database/sql_builder.go:154-181 | the rendered UPDATE or the error |
| SqlBuilder.SqlBuilder.BuildUpdateParams | internal/domain/database/sql_builder.go:184-212 | the prepared UPDATE or the error |
| AlertService.AlertsIff | internal/domain/alert/service.go:53-99 | a sample brings an alert if and only if it is above the threshold, its unbroken run has lasted long enough, had no alert, and no alert of the rule is younger than five minutes |
| AlertService.MetricsByName | internal/domain/alert/service.go:101-118 | each metric name stands for its own value of the sample |
| AlertService.OtherSamplesArePassedOver | internal/domain/alert/service.go:60-68 | samples of rules switched off and of unknown metrics change nothing |
| AlertService.AlertsAreApart | internal/domain/alert/service.go:84-92 | alerts of one rule id are at least five minutes apart over every run, rule changes included |
| AlertService.JudgeIsDue | internal/domain/alert/service.go:73-98 | judging by the stored state and judging by the history are the same |
| AlertService.WorldStands | internal/domain/alert/service.go:37-99 | over every run the stored states and cool-downs stand for the histories |
| AlertService.LastSentIsYoungest | internal/domain/alert/service.go:85-85 | comparing with the last alert compares with all of them |
| AlertService.Service.SetRules | internal/domain/alert/service.go:37-50 | drops exactly the states of ids no longer active and keeps the cool-downs |
| AlertService.Service.Evaluate | internal/domain/alert/service.go:53-99 | states, cool-downs and alerts after one sample, rule by rule |
| JournalRuns.ParseJournalRuns | internal/domain/cron/timer_manager.go:763-826 | one run per invocation, newest first; each log has exactly the records of its invocation in order; the status is failed, else success, else running, by its messages |
| JournalRuns.EveryRecordIsInItsRun | internal/domain/cron/timer_manager.go:782-813 | every record with an invocation is in the log of exactly one run |
| JournalRuns.NewestFirst | internal/domain/cron/timer_manager.go:822-825 | runs are listed in reversed order of first appearance |
| JournalRuns.StatusMeans | internal/domain/cron/timer_manager.go:796-818 | a run has failed if one of its records contains one of the texts of failure, else succeeded if one contains one of success, else it is running |
| JournalRuns.StartMeans | internal/domain/cron/timer_manager.go:805-807 | it began at the first of its times that can be shown |
| JournalRuns.LogMeans | internal/domain/cron/timer_manager.go:808-812 | each record gives one line, with its time, text and the name of its priority |
| JournalRuns.StatusSnoc | internal/domain/cron/timer_manager.go:796-804 | the running update of the status computes failure first, then success |
| JournalRuns.StartSnoc | internal/domain/cron/timer_manager.go:805-807 | and the start time is the first that can be shown |
| JournalRuns.Group | internal/domain/cron/timer_manager.go:773-813 | one more line extends the run of its invocation or begins it |
| JournalRuns.MarkRunning | internal/domain/cron/timer_manager.go:814-818 | runs without a mark are running |
| JournalRuns.Reverse | internal/domain/cron/timer_manager.go:822-824 | swapping the ends reverses the list |
| RedisRestore.RestoreRedis | internal/domain/database/backup.go:417-505 | for every combination of faults: done exactly if the swap happened and the server started; otherwise the dump is as before unless the swap happened, and then what the rollback leaves; no other file is touched |
| RedisRestore.AllOrNothing | internal/domain/database/backup.go:417-505 | success leaves the backup as dump; a failure with a working rollback leaves the dump as it was, absence included; a failure that changes the dump is silent if and only if the kept copy could not be read, and then the backup stays in place |
| RedisRestore.RestoredIff | internal/domain/database/backup.go:417-505 | which steps have to work for a restore to succeed |
| RedisRestore.OldDumpSurvivesIff | internal/domain/database/backup.go:455-476 | after a failure the old dump's bytes are still on the disk if and only if the dump was not replaced, or was put back, or the removal of the kept copy failed too |
| RedisRestore.UndoRestores | internal/domain/database/backup.go:455-476 | the dump is restored if and only if the rollback's own steps work, contents that differ given |
| RedisRestore.SwapIn | internal/domain/database/backup.go:453-505 | the part after the server was stopped |
| RedisRestore.Undo | internal/domain/database/backup.go:455-476 | the deferred rollback |
| RedisRestore.PathsDiffer | internal/domain/database/backup.go:434-477 | dump, kept copy and temporary file are three different paths |
| VerifyLimiter.AttemptsAreBounded | internal/domain/auth/verify_limiter.go:35-63 | over any run on any keys at most threshold * (T / coolDown + 1) failures are counted between two resets of a key |
| VerifyLimiter.CountIsBounded | internal/domain/auth/verify_limiter.go:43-56 | the bound for spaced failures |
| VerifyLimiter.BoundIsReached | internal/domain/auth/verify_limiter.go:43-56 | a burst of whole rounds reaches the bound |
| VerifyLimiter.RunsAreSpaced | internal/domain/auth/verify_limiter.go:43-56 | after each filled threshold nothing counts for the cool-down |
| VerifyLimiter.StoredLock | internal/domain/auth/verify_limiter.go:35-40 | the stored instant locks exactly while the failures do |
| VerifyLimiter.LocksNeedCoolDown | internal/domain/auth/verify_limiter.go:43-56 | a key can be locked at all if and only if the cool-down is positive |
| VerifyLimiter.ResetForgets | internal/domain/auth/verify_limiter.go:59-63 | a reset forgets a key's failures and unlocks it |
| VerifyLimiter.KeysAreApart | internal/domain/auth/verify_limiter.go:35-63 | what is done to other keys does not matter |
| VerifyLimiter.VerifyAttemptLimiter.Allowed | internal/domain/auth/verify_limiter.go:35-40 | false exactly while the failure that filled the threshold is less than the cool-down ago |
| VerifyLimiter.VerifyAttemptLimiter.RecordFailure | internal/domain/auth/verify_limiter.go:43-56 | counts the failure unless the key is locked |
| VerifyLimiter.VerifyAttemptLimiter.ResetKey | internal/domain/auth/verify_limiter.go:59-63 | forgets exactly this key |
| MonitorRing.Ring.Add | internal/domain/monitor/service.go:301-309 | the ring holds the newest sixty of what it held and the point |
| MonitorRing.Ring.Flush | internal/domain/monitor/service.go:312-331 | hands over what the ring holds, oldest first, and empties it |
| MonitorRing.Ring.Latest | internal/domain/monitor/service.go:334-342 | the newest unflushed point, or none |
| MonitorRing.HeldIsNewest | internal/domain/monitor/service.go:301-331 | over every run the ring holds the newest min(k, 60) of the k points since the last flush |
| MonitorRing.FlushHandsOverNewest | internal/domain/monitor/service.go:312-331 | and a flush hands over just these |
| MonitorRing.NothingTwice | internal/domain/monitor/service.go:301-331 | no point is saved twice and they are saved in the order they were collected in |
| MonitorRing.NoneLostIff | internal/domain/monitor/service.go:301-331 | everything is saved or still held, in order, if and only if at most sixty arrived between flushes |
| MonitorRing.EveryPointIsCounted | internal/domain/monitor/service.go:301-331 | saved, held and overwritten points add up to all of them |
| MonitorRing.Collect | internal/domain/monitor/service.go:301-342 | the ring, driven through any run, saves what the run says |

## Left out

- Plumbing: HTTP routes and middleware, streams, the web front end, the command line, mail and webhooks.
- Libraries: SQLite, JSON, zip and tar decoding, bcrypt, JWT, Ed25519, nft, systemd and Docker are steps with outcomes or parameters.
- The plugin supervisor, ValidateSQL and countStatements, the parsing of nft and iptables listings, manifest and password rules: not modelled.
- ArchiveExtract: paths are component sequences, so symbolic links on the disk, path cleaning and the confinement check are behind `nameOk`; file modes, ListArchiveEntries and extractGzip are not modelled; nobody else changes the tree during an extraction.
- EventBus: an id is unsubscribed before it is subscribed again, as the only caller does; JSON encoding failures and the log are left out; the clock only appears as the pauses of DeliverWithRetry.
- RefreshTokens: a token and its hash are one value and new tokens are fresh; the textual comparison of times that SQLite does is a comparison of integers.
- Sessions: IP, user agent and random ids are fields or parameters; the runs take the configured idle timeout as fixed; RemoveSessionByID takes away the row met first, the same one with a sweep as without if both meet it.
- PortAcl: only IPv4 sources; an IPv6 network is not modelled, and remarks and timestamps are left out.
- ForwardChains: a span of destination ports takes the ports listened on one for one, which is what equal lengths are demanded for; the kernel's own choice among them is not modelled. Destinations in IPv6 notation, which pass for IPv4 if they embed one, are not covered by `WhereAPacketGoes`.
- PortForward: addresses and source networks come with what the parser says of them; remarks, counters and negative ids are left out.
- ReplayGuard: device and signature checks are the flag `genuine`; times beyond the range of 64-bit nanoseconds are left out; in `PassesIff` a run tells for which requests the map was purged, while `Guard.SeenBefore` says when that is.
- AuditWriter: the timer's period is left out, it may fire at any time; AppendBatch may fail after it was called, and what it stores is not modelled.
- SqlEscape: text is a sequence of characters, so multi-byte character sets are left out, as are the server settings NO_BACKSLASH_ESCAPES, ANSI_QUOTES and standard_conforming_strings = off.
- SqlTokens: comments are not lexed, and quotes the builders do not use end the reading; a printed number is taken to hold no quote and no placeholder sign.
- SqlBuilder: the printed form of floating-point numbers and other types is a parameter; BuildSelect and the statements about users, databases and tables are not modelled.
- AlertService: metric values are reals, so NaN is left out; the text and the channels of an alert are not modelled.
- JournalRuns: splitting, trimming and decoding lines is done beforehand, and the formatting of times is a parameter.
- RedisRestore: stopping and starting the container is taken not to write the dump, and changing the temporary file's owner is left out; a failed write may leave a temporary file behind.
- VerifyLimiter: the clock does not go back.
- MonitorRing: what SaveBatch stores is not modelled; a batch it fails to store is lost, as in the code.
