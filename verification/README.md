# ReCoder core: a model of what keeps state

ReCoder drafts code and deploys it to AWS. This project models, in Dafny, the parts of its Core that keep state over
several steps, over faults or over repeated calls, and the text and path transformations that promise to undo or to
stabilise themselves. Each file is one module.

| module | models |
|---|---|
| `AdrLedger`, `AdrProcess`, `AdrShared`, `AdrCollision`, `AdrProgress`, `AdrOps` | ADR numbers: threads and Core processes, two locks, a ledger on disk and a high-water mark in memory; what they keep, when they collide, and that they get on |
| `OriginLock`, `Cdn`, `OriginRotation` | the secret header between CloudFront and the load balancer: listener calls, distribution updates, edges that lag behind, whole histories of deployments |
| `FilePlan`, `FilePlanSafety`, `FilePlanRecovery`, `FilePlanFaults`, `FilePlanWorkspace`, `Utf8` | a plan of writes and renames with backups and rollback: its steps, what they keep, what is put back after a fault, the faults that are not taken back, the code, and the bytes that a cut write leaves |
| `SingleFlight`, `FlightHistory` | the cache of model answers with one leader for each prompt: its steps, and what each request gets as a function of the events so far |
| `ClientTracking`, `ClientHeights`, `ModuleRules`, `CallReplay` | which names hold AWS clients and how many rounds that takes to find out, which rules a module gives, and which service each call goes to |
| `PolicySplit`, `ManagedPolicies` | splitting an IAM policy and putting the parts on a role |
| `Cleanup`, `CleanupReport` | deleting approved resources in order, and what the report says of them |
| `StableHistory` | the record of successful deployments |
| `SecretScrub`, `SecretLoss`, `Neutralize`, `NeutralizedLines` | hiding secrets and instruction-like lines, and putting them back |
| `CleanText`, `CleanKeeps`, `Spec`, `SpecKeeps` | normal forms of untrusted text and of specifications, and what they keep |
| `CodePaths`, `PathMeaning` | paths that a proposal may write, and where their segments lead |
| `Wrappers`, `Decimal`, `Text`, `Sorting` | option and result types, numerals, string operations, the stable sort |

Protocols (`AdrLedger`, `SingleFlight`, `OriginRotation`) are step machines: `Enabled` and `Apply` give one step,
`Run` a history, and the theorems hold for every history. Code that updates fields is a class whose methods are proved
against functions or step functions; what the code promises is proved about those. Remote calls, disk primitives and
locks fail whenever a parameter says so. Random values, clocks, regular expressions and case folding are parameters.

## Where the code does less than its comments say

Each of these has a lemma, and beside it the condition under which the promise holds.

- ADR numbers: the file lock is optional in the code. Without it two Cores can be given one number
  (`UnlockedCoresCollide`); with it they cannot, as long as the ledger holds numbers only (`GrantsAreDisjoint`). Two
  overlapping calls without the lock collide exactly if the process that knows less asks for more numbers than the other
  is ahead (`MissingLockExactly`), and so do two calls of which the first failed to store (`FailedStoreExactly`). A
  failed read loses the numbers of all other workspaces (`FailedReadExactly`). One
  entry that is no number empties the whole dictionary that is then written back, so that numbers reserved for other
  workspaces are forgotten and granted again by another process (`JunkEntryForgets`, `OthersKeptExactly`). Inside one
  process its memory protects in any case (`GrantsOfOneProcessIncrease`), and against files that are there the scan does
  (`LaterNumbersExceedFiles`). A ledger lost between two processes forgets all that is not yet approved
  (`LostLedgerForgets`).
- Origin lock: a header rule that already has the wanted values and target keeps any further condition it has
  (`LockedTraffic`). Widening a full list of five values drops the last one (`WidenKeepsFirstFour`), so that the sixth
  secret in a row can lock out edges that still send the first (`SixthSecretLocksOut`, `RoomExactly`). Lock then unlock
  gives the listener back only if it forwarded by default and had no header rule (`LockThenUnlock`).
- CloudFront: the secret is looked for in every origin, requests go to the first; with several origins "live" can be
  wrong (`LiveSecretIsEverywhere`). A certificate without an alias fails (`EnsureFailsOnlyWithoutAlias`), and a new
  certificate for the alias that the distribution has is not taken over (`NameIsWanted`).
- File plan: a write that is cut inside a character leaves a file that the recovery can not read and therefore leaves
  as it is (`TornWriteStays`); everything comes back after every fault exactly if each text that replaces another one
  is ASCII (`ComesBackExactly`). A plan that renames onto a name chosen for a backup can destroy that backup
  (`TargetOnBackupLosesText`, `BackupLasts`).
- Client tracking: eight rounds are too few for nine names that are assigned on from one to the next
  (`NineAliasesAreTooMany`); modules without conflicts settle if there are at most eight names to learn
  (`EightNamesSettle`), and of the straight lines only those do (`AliasesSettleExactly`). Any module without conflicts
  settles exactly if no name is higher than eight, where the height counts the links that read a copy of the tables made
  before the name was written (`EightRoundsExactly`).
- Call replay: `c = c.paginate()` is replayed as an assignment before the call, so the call is recorded only if
  the value, or something other than the client that `c` held, names a service (`SelfRebindingIsLost`).
- Policy splitting: the check of a single statement measures with the default version, so a longer version text can
  let a document over the limit through (`LongVersionEscapes`, `GreedyIsSplit`).
- Managed policies: documents are replaced one at a time, so a statement that moves on to a later document is in none
  of them for a while (`MovedStatementIsLost`); nothing is lost on the way exactly if no statement moves on
  (`NothingLostExactly`).
- Cleanup: of three security groups that name each other in a chain the middle one can be deleted before the group
  that names it (`ChainedGroupsOutOfOrder`, `OutOfOrderExactly`). Only a database that this run has tried keeps what it uses
  from being deleted (`DependentIsTriedExactly`): a secret can go while its database is not up for deletion
  (`SecretGoesBeforeDatabase`).
- Masking: a secret that is masked again as part of a longer match does not come back (`MaskedTwiceIsLost`), nor one
  that is found again under another tag (`OtherTagIsLost`); `SecretLoss.ComesBackExactly` says which hits are harmless.
- Neutralising: the text comes back exactly if no line that stayed in it holds the marker (`Neutralize.RoundTrip`).
- Paths: an accepted path with white space at an end is not accepted again as itself (`AcceptedAgain`,
  `LeftoverBlank`).

## Model

| member | source | states |
|---|---|---|
| AdrLedger.NextStart | core/adr.py:495 | the number is above the scan, the ledger and the memory, and the smallest such |
| AdrProcess.ProcessStep | core/adr.py:477-509 | every single step, faults included, keeps the invariant of locks, numbers and grants of one process |
| AdrProcess.GrantsOfOneProcessIncrease | core/adr.py:124-132 | over every history of failed reads, corrupt ledgers, failed stores, missing file locks and crashes, the ranges one process grants for a workspace are disjoint and increase |
| AdrShared.SharedStep | core/adr.py:477-509 | every step without a ledger fault keeps the invariant that ties disk, memories and grants of all processes |
| AdrShared.GrantsAreDisjoint | core/adr.py:458-509 | over every history from a ledger of numbers in which locks, reads and stores succeed, no number is in two grants of a workspace, whatever the scans missed |
| AdrShared.ApprovalNeverOverwrites | core/adr.py:563-591 | in such histories, the ledger holding only numbers at the start, an approval, in any order, replaces no other proposal's file and no file its own scan saw |
| AdrProgress.AllCanReturn | core/adr.py:477-509 | no history without faults leads to a deadlock: all calls under way can return, and each is granted its numbers |
| AdrProgress.OthersOutliveACrash | core/adr.py:83-121 | after any such history and a crash, nothing that was granted is lost, no call of the dead process is left, and all calls of the others can return |
| AdrProgress.LaterNumbersExceedFiles | core/adr.py:329-339 | over every history, faults included, a call that lists the directory once a file is in it is granted numbers larger than the file's |
| AdrProgress.ApprovedNumbersAreBehind | core/adr.py:563-591 | hence no proposal made after an approval has the approved number or a smaller one |
| AdrProgress.LostLedgerForgets | core/adr.py:477-509 | a history in which the ledger is emptied between the calls of two processes, and both are granted number 1 |
| AdrCollision.UnlockedCoresCollide | core/adr.py:83-121 | a history without the file lock in which two Cores are granted the same number |
| AdrCollision.JunkEntryForgets | core/adr.py:477-509 | a run without any fault in which one entry that is no number lets two processes be granted the same number of another workspace |
| AdrCollision.OthersKeptExactly | core/adr.py:477-509 | a call without faults keeps the recorded numbers of all other workspaces if and only if its own entry is absent or a number, or stands alone |
| AdrCollision.FailedReadExactly | core/adr.py:477-509 | a call whose read failed keeps the recorded numbers of all other workspaces if and only if there are none, and grants above the recorded number of its own if and only if that is no larger than the scan or the memory |
| AdrCollision.FailedStoreExactly | core/adr.py:498-509 | from a ledger of numbers, after a failed store the next process is granted one of those numbers again if and only if, of the two, the one that knows less asks for more numbers than the other is ahead |
| AdrCollision.MissingLockExactly | core/adr.py:83-121 | from a ledger of numbers, two calls that overlap without the file lock are granted a common number if and only if they are for one workspace and the same holds; afterwards the ledger covers the range of the call that stored first if and only if the other one is for its workspace and reaches as far |
| AdrOps.ScanFindsFile | core/adr.py:329-339 | a written ADR name is read back by every scan as the number it was given |
| AdrOps.IndexExactly | core/adr.py:329-339 | a file counts with number n if and only if its name is `ADR-`, a numeral of value n, anything, and `.md` |
| AdrOps.FileNameShape | core/adr.py:563-591 | a written name has the number in at least three digits and no more than needed, and the slug behind it |
| AdrOps.FileNamesDiffer | core/adr.py:563-591 | file names of different numbers differ, whatever their titles |
| AdrOps.ScanMax | core/adr.py:329-339 | the loop finds the largest number of the matching names, 0 if there is none |
| AdrOps.Core.Allocate | core/adr.py:458-509 | start number, memory and ledger after a call, for every combination of a failed read and a failed store; a count of zero or less changes nothing |
| AdrOps.UninterruptedCall | core/adr.py:477-509 | the eight steps of the machine, run without interruption, grant, remember and store what `Core.Allocate` does |
| AdrOps.BuildOps | core/adr.py:563-591 | one operation for each decision, numbered consecutively from the start number |
| AdrOps.ProposalsNeverShareAFile | core/adr.py:563-591 | operations of two different proposals never have the same file name |
| OriginLock.Best | core/aws_edge.py:361-379 | a request meets the matching rule with the smallest priority, or none |
| OriginLock.HeaderIndex | core/aws_edge.py:331-340 | the first rule with the secret-header condition |
| OriginLock.Dedupe | core/aws_edge.py:367 | the values once each, the first one in front |
| OriginLock.DedupeInOrder | core/aws_edge.py:367 | they keep the order of their first occurrences |
| OriginLock.FreeFrom | core/aws_edge.py:343-345 | the smallest unused priority from the first one on, none if all are used |
| OriginLock.SecretSurvivesCut | core/aws_edge.py:367 | the new secret is the first of at most five values, and all values stay if they fit |
| OriginLock.KeptExactly | core/aws_edge.py:367 | a value is kept if and only if fewer than five other values come before it |
| OriginLock.WidenKeepsFirstFour | core/aws_edge.py:382-392 | an old value survives widening if and only if it is among the first four |
| OriginLock.LockHasNoGap | core/aws_edge.py:361-379 | after each call of a lock, a request accepted before and after the whole call is accepted |
| OriginLock.WidenHasNoGap | core/aws_edge.py:382-392 | the same for widening |
| OriginLock.UnlockHasNoGap | core/aws_edge.py:395-406 | the same for unlocking |
| OriginLock.LockedTraffic | core/aws_edge.py:361-379 | after a lock, requests that meet no user rule reach the app if and only if they carry a listed value and what the rule still asks for; it asks for more exactly if the old rule had the wanted values and target and a further condition |
| OriginLock.LockedRules | core/aws_edge.py:361-379 | every rule but the header rule stays as it was; that one keeps name and priority, or is new, behind all others, with the smallest unused priority of 10 to 50000 |
| OriginLock.LockFailsExactly | core/aws_edge.py:365-373 | without a refused call a lock fails if and only if the secret is empty, or a rule is to be added and every priority is used |
| OriginLock.WidenExactly | core/aws_edge.py:382-392 | widening does nothing if and only if the listener has no fixed response or accepts the secret; else the secret comes first and the old values behind it |
| OriginLock.UnlockedTraffic | core/aws_edge.py:395-406 | unlocking forwards by default and takes exactly the first header rule away; no call is made if and only if that is so already |
| OriginLock.LockKeepsValid | core/aws_edge.py:343-379 | no two rules share a priority or a name in any intermediate state |
| OriginLock.UserRulesUntouched | core/aws_edge.py:361-406 | no state of locking or unlocking changes a rule without the header condition |
| OriginLock.LockThenUnlock | core/aws_edge.py:361-406 | lock then unlock gives the listener back if and only if it forwarded by default and had no header rule |
| OriginLock.NewHttpsIsNeverOpen | core/aws_edge.py:430-458 | a 443 listener made while port 80 is locked forwards, in every intermediate state, only requests with a listed value; what it does forward in the end is `NewHttpsTraffic` |
| OriginLock.NewHttpsTraffic | core/aws_edge.py:430-458 | a new 443 listener ends by sending every request to the app if port 80 is open, and otherwise exactly those with one of the first five different values of port 80, all others being answered with 403 |
| OriginLock.OldHttpsDefault | core/aws_edge.py:450-457 | the default of an existing 443 listener afterwards: 403 if port 80 is locked with some value, its own if port 80 is locked with none or it has a fixed response itself, the app in all other cases; its rules stay unless port 80 is locked with some value |
| OriginLock.OldHttpsTraffic | core/aws_edge.py:450-454 | an existing 443 listener beside a port 80 locked with some value sends requests that meet no other rule to the app if and only if they carry an accepted value of port 80 and what the rule still asks for |
| OriginLock.HttpsFailsExactly | core/aws_edge.py:450-454 | without a refused call it fails if and only if port 80 is locked and lists an empty value first, or a rule is to be added and every priority is used |
| OriginLock.Elb.LockOrigin | core/aws_edge.py:361-379 | the calls pass through exactly the states of `LockStates`, a prefix of them if a call fails |
| OriginLock.Elb.WidenOriginLock | core/aws_edge.py:382-392 | the same for `WidenStates`; the answer says whether the listener was locked |
| OriginLock.Elb.UnlockOrigin | core/aws_edge.py:395-406 | the same for `UnlockStates`; the answer says whether anything was changed |
| Cdn.ReconciledHeader | core/aws_cdn.py:204-216 | the new configuration holds the secret, and sends it exactly when the origin was replaced or sent it before |
| Cdn.OriginIsWanted | core/aws_cdn.py:200-221 | after a successful call, on a new distribution or an old one, the first origin has the wanted domain and is reached by HTTPS only if and only if asked, by HTTP only otherwise; the configuration is enabled, headers that somebody else added stay and no others do, and the comment is the wanted one unless no region is known |
| Cdn.NameIsWanted | core/aws_cdn.py:222-224 | with alias and certificate the alias holds alone, and the certificate is the given one if and only if the distribution is new, had other aliases or had that certificate; without one of them an old distribution keeps both and a new one has neither |
| Cdn.AclIsWanted | core/aws_cdn.py:225-229 | the web ACL afterwards: the wanted one, or the one before if none is asked for, or if it is to be detached and was made by somebody else |
| Cdn.ReplyExactly | core/aws_cdn.py:172-239 | the reply tells the secret and web ACL that are stored, takes the token only if there was no secret, and calls secret and web ACL live if and only if the distribution is new, or deployed and had a secret, or the wanted web ACL, before |
| Cdn.EdgesMayLag | core/aws_cdn.py:230-234 | the distribution changes if and only if its configuration does, is then no longer deployed, and edges may serve the new configuration and every one they could before |
| Cdn.LiveSecretIsEverywhere | core/aws_cdn.py:193-239 | if the secret is reported live, every configuration an edge may still serve sends it, if and only if the first origin had the header |
| Cdn.LiveAclIsEverywhere | core/aws_cdn.py:220-239 | if the web ACL is reported live, every edge applies it |
| Cdn.EnsureKeepsValid | core/aws_cdn.py:172-239 | the distribution stays consistent: a deployed one has one configuration everywhere |
| Cdn.EnsureTwice | core/aws_cdn.py:172-239 | a second call with the same arguments changes nothing, however far the first has spread, unless it names a certificate without an alias |
| Cdn.CloudFront.Edit | core/aws_cdn.py:200-231 | the field-by-field edits give the reconciled configuration, and the flag says whether it differs |
| Cdn.CloudFront.EnsureDistribution | core/aws_cdn.py:172-239 | the reply and the stored distribution are those of `Ensure`, whose outcome `OriginIsWanted`, `NameIsWanted`, `AclIsWanted` and `ReplyExactly` give in terms of the arguments; or a refused remote call has left the distribution as it was |
| OriginRotation.Step | core/agents/ecs_agent.py:1009-1064 | each deployment, listener call, failed call and propagation keeps the invariant between edges and listener, as long as no header is changed by hand |
| OriginRotation.NoEdgeIsLockedOut | core/agents/ecs_agent.py:1009-1064 | over every history of deployments, failures and propagation without changes by hand, from an open listener and a distribution with one origin or none: at every moment, what any edge may still send reaches the app unless a user rule takes it |
| OriginRotation.RoomExactly | core/agents/ecs_agent.py:1048-1064 | after any history, headers changed or removed by hand included, a deployment keeps every accepted value that some edge still sends, through each of its listener calls, if and only if, before it starts, the listener is open, there is no distribution, or it is deployed and sends a secret, the secret it is to have is accepted, fewer than five values are accepted, or the last of five is sent by no edge |
| OriginRotation.DeploymentWithRoomLocksNobodyOut | core/agents/ecs_agent.py:1048-1064 | after any such history, until the next deployment or change by hand, a value that was accepted and that some edge still sends reaches the app, if the deployment has room |
| OriginRotation.RemovedHeaderWidens | core/aws_edge.py:382-392 | after the header was removed by hand, the next deployment accepts its new secret beside the old values |
| OriginRotation.HandEditExactly | core/aws_cdn.py:193-196 | whatever headers somebody writes into the origin by hand, the configuration then holds exactly those, and edges may still serve every earlier one |
| OriginRotation.SixthSecretLocksOut | core/aws_edge.py:367 | for any six different secrets a whole history, from an open listener and no distribution, of deployments without a certificate and headers removed by hand after which an edge sends the first secret and the listener no longer accepts it |
| OriginRotation.LiveDeployLocks | core/agents/ecs_agent.py:1048-1051 | a deployment with a live secret ends with only that secret let through |
| OriginRotation.NextDeploymentLocks | core/agents/ecs_agent.py:1048-1064 | after any history, a deployment whose listener calls may all fail can be followed by the edges catching up and one more deployment with the same arguments, so that the listener is locked, accepts the secret alone, and every edge sends it; a header rule or a free priority is there, and no certificate comes without an alias |
| FilePlan.RenameMap | core/build_readiness.py:4265 | the dictionary of renames has distinct sources that are files and free targets |
| FilePlan.MapExactly | core/build_readiness.py:4264-4268 | the renames carried out are, for each source, the last pair of the list whose source is a file and whose target is free |
| FilePlan.AcceptedExactly | core/build_readiness.py:4264-4269 | a list of pairs is let through if and only if for each source in it some pair fits |
| FilePlan.BackupIsInFolder | core/build_readiness.py:4006-4020 | a backup lies directly in the backup folder, and its name tells the path and the time |
| FilePlan.ReadableAfterEveryCut | core/build_readiness.py:3950-3952 | a text can be read back wherever its bytes are cut if and only if it is ASCII |
| Utf8.CutIsDecoding | core/build_readiness.py:3950-3952 | what is read after the first k bytes of a text were stored is a text if and only if these bytes are the UTF-8 encoding of one, and then it is that one, a prefix of the text |
| FilePlanSafety.CopyAllFacts | core/build_readiness.py:4286-4291 | after the first loop, also after a fault in it, old files are unchanged and the recovery table is right |
| FilePlanSafety.BackupLasts | core/build_readiness.py:4286-4291 | after the first loop the backup of a renamed file holds its text if and only if no rename from that one on puts another text at the name chosen for the backup |
| FilePlanSafety.WriteAllFacts | core/build_readiness.py:4292-4307 | the second loop, also after a fault, keeps the recovery table right and every old text in some file |
| FilePlanRecovery.AppliedIsWanted | core/build_readiness.py:4264-4314 | an applied plan leaves every path outside the backup folder as the plan wants it |
| FilePlanRecovery.RolledBackExactly | core/build_readiness.py:4315-4329 | after a fault a path comes back if and only if it was free or the fault has left no undecodable bytes there |
| FilePlanRecovery.StuckStays | core/build_readiness.py:4315-4329 | a path whose recovery fails stays as the fault left it |
| FilePlanRecovery.AvoidingKeepsOriginals | core/build_readiness.py:4264-4329 | a plan that stays out of the backup folder loses no original and no older backup, whatever faults |
| FilePlanRecovery.SparingKeepsOriginals | core/build_readiness.py:4264-4314 | nor does any applied plan none of whose renames spoils a backup |
| FilePlanFaults.ComesBackExactly | core/build_readiness.py:4248-4329 | a plan is taken back entirely for a fault at any primitive and a cut at any byte if and only if every text that replaces another one is ASCII |
| FilePlanFaults.TornWriteStays | core/build_readiness.py:4315-4329 | a run in which a write cut inside a character is not taken back |
| FilePlanFaults.TargetOnBackupLosesText | core/build_readiness.py:4286-4314 | a run without faults of a plan that renames a file onto its own backup name, after which the old text is in no file |
| FilePlanWorkspace.Workspace.WriteText | core/build_readiness.py:3988-4003 | a write succeeds, or leaves the file as it was or with some first bytes of the text, readable or not |
| FilePlanWorkspace.Workspace.Backup | core/build_readiness.py:4006-4020 | the backup goes to a name that was free, whatever backups exist |
| FilePlanWorkspace.Workspace.CheckReadable | core/build_readiness.py:4270-4282 | everything the plan reads is text, or nothing is changed |
| FilePlanWorkspace.Workspace.CopyTargets | core/build_readiness.py:4286-4291 | the loop performs the copying steps; targets hold the renamed or new text |
| FilePlanWorkspace.Workspace.WriteOne | core/build_readiness.py:4292-4307 | one turn of the second loop is the step `Overwrite`, whose effect `WriteAllFacts` states |
| FilePlanWorkspace.Workspace.DeleteSources | core/build_readiness.py:4308-4314 | the loop deletes the sources in order, up to the first deletion that faults |
| FilePlanWorkspace.Workspace.Rollback | core/build_readiness.py:4315-4329 | every recorded path that can be read or is gone is put back, the others are left as they are |
| FilePlanWorkspace.Workspace.ApplyFilePlan | core/build_readiness.py:4248-4331 | all of the plan or none of it for a fault at any primitive, but for a path that a cut write has left unreadable; no original is lost while the plan stays out of the backup folder |
| SingleFlight.ValidRun | core/analyzer.py:532-571 | every history keeps the invariant of futures, leaders, waiters and cache |
| SingleFlight.OneLeaderPerKey | core/analyzer.py:541-553 | no two leaders run for one prompt |
| SingleFlight.PendingWhileLeading | core/analyzer.py:551-571 | a future is pending if and only if it is registered and its leader runs |
| SingleFlight.NoWaiterIsStranded | core/analyzer.py:562-571 | a waiter can wake as soon as its leader is gone, however the leader ended; what it then gets is `FlightHistory.WaiterGetsTheLeadersAnswer` |
| FlightHistory.WhatCanHappen | core/analyzer.py:541-571 | what can happen after any history: a new request can come, a call under way can return anything or be cancelled, a waiter can be cancelled, and it can wake if and only if its leader's call is over |
| FlightHistory.LeaderGetsItsOwn | core/analyzer.py:553-563 | over every history, a leader whose call returned is served exactly what was returned, for the prompt it came with |
| FlightHistory.WaiterGetsTheLeadersAnswer | core/analyzer.py:541-571 | over every history, a waiter that has woken, its leader not being cancelled, is served exactly the answer its leader was served; it is aborted if and only if it was cancelled, or woke to find its leader cancelled; otherwise it still waits |
| FlightHistory.ArrivalOutcome | core/analyzer.py:541-553 | after every history, a request is served at once if and only if some call for its prompt returned a real answer less than sixty seconds after it began and no later answer or purge has replaced it, and then with exactly that answer and age; else it waits for the call under way for its prompt, if there is one, and otherwise leads one itself |
| SingleFlight.ServedAnswersFit | core/analyzer.py:556-561 | what is served was produced for the same prompt, and from the cache never a fallback and never an expired answer |
| SingleFlight.CancelledWaiterIsPrivate | core/analyzer.py:541-548 | whatever the others do after a waiter is cancelled they could do without the cancellation, with the same outcome |
| SingleFlight.Analyzer.Purge | core/analyzer.py:620-623 | exactly the expired entries go |
| SingleFlight.Analyzer.OnArrive | core/analyzer.py:620-633 | an arrival is served from the cache, waits or leads, as the step says |
| SingleFlight.Analyzer.OnReturn | core/analyzer.py:553-563 | a return fills the cache unless it is a fallback, resolves the future and unregisters it |
| SingleFlight.Analyzer.OnCancelLeader | core/analyzer.py:564-571 | a leader that ends without an answer drops its future and unregisters it |
| ClientTracking.Candidates | core/aws_calls.py:460-470 | a call means the definitions of its name, on `self` those of the same class if there are any |
| ClientTracking.ModuleScanner.Apply | core/aws_calls.py:583-604 | reading the rules gives the same tables as the specification, and the flag is raised if and only if some rule did not hold before |
| ClientTracking.ModuleScanner.OneRound | core/aws_calls.py:580-627 | one round, and it changes nothing if and only if the tables are closed |
| ClientTracking.ModuleScanner.Resolve | core/aws_calls.py:557-630 | the tables are those after eight rounds over the blocks of the module, however early the loop stops, and the answer says whether some earlier round changed nothing; which rules the blocks hold is `ModuleRules.RulesExactly` |
| ModuleRules.RulesExactly | core/aws_calls.py:445-483 | the rules of a module are exactly: each assignment to its dotted, global or local name; each positional argument to the parameter at its place, or at the next place if the call is on an attribute and the first parameter is `self` or `cls`, and each keyword to the parameter of its name, of every definition the call may mean; each bound parameter to its local name; and each returned value to the function's name |
| ModuleRules.BlocksExactly | core/aws_calls.py:580-627 | a round visits the scopes in order, each with the parameters it is given first and its assignments and calls behind them, and after the scopes the returns, and nothing else |
| ModuleRules.PassedClientIsKnown | core/aws_calls.py:445-483 | a client that a call passes, by place or by keyword, is known inside each function that the call may mean two rounds later; as that client if no two rules disagree |
| ModuleRules.PassedLiteralIsKnown | core/aws_calls.py:445-483 | hence a client made in the call is known inside the function after the eight rounds |
| ModuleRules.SelfIsSkipped | core/aws_calls.py:471-474 | `self.put(boto3.client("s3"))` on `def put(self, client)`: after the eight rounds `client` is known, and no rule says anything of `self` |
| ModuleRules.AssignedClientIsKnown | core/aws_calls.py:580-604 | a client assigned in a scope is known under that name a round later |
| ModuleRules.ReturnedClientIsKnown | core/aws_calls.py:605-627 | a client that a function returns is known of the function a round later |
| ModuleRules.EveryClientIsTraced | core/aws_calls.py:557-630 | whatever the rounds know, conflicts or not, was made by a literal client and handed on by rules of the module |
| ClientTracking.SettledTables | core/aws_calls.py:557-630 | if a round changes nothing, every entry is supported by a rule and the known names are the least set closed under all rules |
| ClientTracking.ChangingRoundsBounded | core/aws_calls.py:579-630 | without conflicting services, no more rounds change anything than there are names |
| ClientTracking.IdleRound | core/aws_calls.py:579-630 | a round on closed tables changes nothing |
| ClientTracking.EightNamesSettle | core/aws_calls.py:511-513 | eight rounds close the tables of every module without conflicts that has at most eight names to learn |
| ClientHeights.KnownExactly | core/aws_calls.py:557-630 | a name is known after n rounds if and only if some chain of rules leads to it from a client with fewer than n links that read a copy of the tables made before the name was written, or a place of the round before it |
| ClientHeights.EightRoundsExactly | core/aws_calls.py:511-513 | without conflicting services, eight rounds close the tables if and only if every name that some chain leads to is reached by one with at most seven such links |
| ClientTracking.AliasesSettleExactly | core/aws_calls.py:511-513 | of the modules that assign n names on from one to the next exactly those with at most eight settle |
| ClientTracking.ChainIsOpen | core/aws_calls.py:511-513 | n names assigned on from one to the next need n changing rounds |
| ClientTracking.NineAliasesAreTooMany | core/aws_calls.py:511-513 | nine such names in a module without conflicts leave the last one unknown after the eight rounds |
| CallReplay.OrderingFacts | core/aws_calls.py:656-663 | the events are put in source order, assignments first at one position, and otherwise keep their order |
| CallReplay.CollectCalls | core/aws_calls.py:637-715 | the records stand, one for one and in order, for exactly the calls of the ordering that have a receiver, make no client and whose receiver means some service at that place, and hold that service, the operation and the line; what a receiver means is a backward search for the latest effective assignment |
| CallReplay.AssignedClientIsRecorded | core/aws_calls.py:665-697 | a call on a name is recorded under the service of the client last assigned to the name before it |
| CallReplay.SettledClientIsRecorded | core/aws_calls.py:637-663 | a call on a name that the scope does not assign before it is recorded under what the rounds found for the name |
| CallReplay.OverwrittenClientIsForgotten | core/aws_calls.py:665-694 | a call on a name that was last assigned something unknown is not recorded |
| CallReplay.UpdateServiceIsRecorded | core/aws_calls.py:699-715 | of `c = boto3.client("ecs")` and `c.update_service()` on a later line exactly this call is recorded, whatever the scope knew before |
| CallReplay.IdleAssignmentsDoNotMatter | core/aws_calls.py:665-694 | dropping all assignments of constants and to dotted names changes the meaning of no name |
| CallReplay.AssignmentsComeFirst | core/aws_calls.py:656-663 | in the order of the replay an assignment stands before a call if and only if its value does not start after the call, by line and then by column |
| CallReplay.SelfRebindingIsLost | core/aws_calls.py:656-697 | what a call on a name is resolved to after an assignment of the name, up to the next one: what the name held before plays no part unless the value is a constant |
| PolicySplit.SplitPolicy | core/aws_policy.py:1344-1359 | the loop gives the greedy documents, or the first statement that is too big |
| PolicySplit.SizeIsLength | core/aws_policy.py:1335-1341 | the size of a document is the length of its compact text |
| PolicySplit.GreedyIsSplit | core/aws_policy.py:1344-1359 | non-empty documents within the limit that concatenate to the statements in order, if and only if each statement fits beside the policy's version |
| PolicySplit.AcceptedIsSplit | core/aws_policy.py:1344-1359 | what the check lets through is such a split for versions no longer than the default |
| PolicySplit.GreedyIsFewest | core/aws_policy.py:1344-1359 | no order-preserving split within the limit uses fewer documents |
| PolicySplit.FailsOnlyIfImpossible | core/aws_policy.py:1355-1356 | the call succeeds if and only if some split exists at all |
| PolicySplit.LongVersionEscapes | core/aws_policy.py:1349-1356 | a policy with a longer version whose document passes the check and exceeds the limit |
| ManagedPolicies.OwnArn | core/aws_role.py:361-362 | the names this code gives are recognised by the prefix it later looks for |
| ManagedPolicies.OursExactly | core/aws_role.py:404-407 | a policy is taken for one of ours if and only if its name has the prefix |
| ManagedPolicies.DocumentsAre | core/aws_role.py:374-376 | of a policy let through, with a version no longer than the default, no document is empty or over 6144 characters, each has the policy's version, and no fewer would do |
| ManagedPolicies.ArnInjective | core/aws_role.py:378-380 | different numbers give different policies |
| ManagedPolicies.AfterFacts | core/aws_role.py:374-413 | afterwards the attached deploy policies are exactly the current documents, and other policies are as before |
| ManagedPolicies.AfterTwice | core/aws_role.py:374-413 | a second run leaves what the role may do unchanged |
| ManagedPolicies.RoleHoldsThePolicy | core/aws_role.py:374-413 | the default documents, in the order of their numbers, are the statements of the policy in order |
| ManagedPolicies.NothingLostExactly | core/aws_role.py:374-413 | between any two installations everything allowed before and after the update is allowed if and only if every old statement that first appears in new document k is also in the inline policy or in an old document that the first k new ones do not replace |
| ManagedPolicies.MovedStatementIsLost | core/aws_role.py:374-413 | a new statement in front of three, all of 3000 characters: the second of the three is in no document between the two installations |
| ManagedPolicies.MakeRoom | core/aws_role.py:393-396 | all other versions stay if they are at most three, else three of them, the newest; the default is not deleted; an error is the refused call's |
| ManagedPolicies.Iam.CreatePolicyVersion | core/aws_role.py:397 | the new version becomes the default, and a sixth one is refused |
| ManagedPolicies.InstallOne | core/aws_role.py:377-403 | one document is in place, or the role may do what it could before or already what it is to do |
| ManagedPolicies.DetachOthers | core/aws_role.py:404-407 | exactly the leftover deploy policies are taken off, a part of them if a call fails |
| ManagedPolicies.AttachManaged | core/aws_role.py:374-413 | for a refusal or failure of any call: never more than five versions, no attached policy goes before all that is new is in place, no policy of another name is touched; no statement kept by the update is ever missing if none moves on, and in a finished run only then; and the final state |
| Cleanup.PlanFacts | core/aws_cleanup.py:776-780 | the order of deletion is a permutation of the chosen items, sorted by kind also after the security groups are spliced in |
| CleanupReport.PlannedExactly | core/aws_cleanup.py:763-775 | planned are exactly the requested items that the fresh listing, where it names them last, shows as tagged |
| CleanupReport.PlanInOrder | core/aws_cleanup.py:47-55 | of two items in the plan the earlier one is of no later kind, in the order of the kinds written out; within a kind names decide, for security groups first whether they name a chosen one |
| CleanupReport.MentionDecides | core/aws_cleanup.py:762-780 | of two that nothing else tells apart the one that the request mentions first goes first |
| Cleanup.GroupOrderFacts | core/aws_cleanup.py:751-754 | security groups that name a chosen one come first, then by name |
| Cleanup.OutOfOrderExactly | core/aws_cleanup.py:751-754 | some chosen group comes before another that names it if and only if a named group names a chosen one too and precedes its referrer by name, or by place among equal names |
| Cleanup.ChainedGroupsOutOfOrder | core/aws_cleanup.py:751-754 | a chain of three groups in which the named one goes first |
| Cleanup.Delete | core/aws_cleanup.py:757-819 | nothing without approval; otherwise attempts, lines and totals are those of the plan |
| CleanupReport.ReportTells | core/aws_cleanup.py:784-816 | a line says ok if and only if its item was attempted and deleted, and skipped if and only if it was not attempted or was kept |
| CleanupReport.SkipsInOrder | core/aws_cleanup.py:767-775 | the lines of what is not listed or not tagged follow the request |
| CleanupReport.TotalsAreOutcomes | core/aws_cleanup.py:817-819 | the totals are the numbers of attempts that deleted and that failed |
| CleanupReport.OnlyDependentsAreHeld | core/aws_cleanup.py:57 | every planned item is attempted but subnet groups, parameter groups and secrets of databases |
| Cleanup.DeletesWhatWasApproved | core/aws_cleanup.py:763-811 | only requested items that the fresh listing holds with the tag are attempted, in order of kind, and each distinct identifier has exactly one line |
| Cleanup.DatabaseDecidesFirst | core/aws_cleanup.py:784-811 | once a database is kept or fails, nothing its service's databases use is attempted anywhere in the run |
| Cleanup.HeldBackByDatabase | core/aws_cleanup.py:792-795 | what is not attempted is held back by such a database |
| Cleanup.DependentIsTriedExactly | core/aws_cleanup.py:784-811 | a planned resource that databases use is attempted if and only if no database that was attempted, of its service or of no known one, was left behind |
| Cleanup.SecretGoesBeforeDatabase | core/aws_cleanup.py:784-811 | a listing with a database and the secret of its service: with only the secret requested it is attempted and the database is not |
| Cleanup.UntriedDatabasesHoldNothing | core/aws_cleanup.py:792-807 | what a service's databases use is attempted if none of them is requested and tagged, whatever databases exist |
| StableHistory.Store.RecordSuccess | core/ecs_stable.py:60-70 | the stored list stays the last twenty of the recency list of all successes |
| StableHistory.CutThenRecord | core/ecs_stable.py:60-70 | cutting before the next record loses nothing that the cut after it keeps |
| StableHistory.StoredList | core/ecs_stable.py:60-70 | at most twenty entries, one for each revision, all of them recorded successes |
| StableHistory.LatestOfLog | core/ecs_stable.py:73-78 | the stored list answers as the whole log does |
| StableHistory.KeptExactly | core/ecs_stable.py:60-70 | a success is still in the stored list if and only if fewer than twenty other revisions have succeeded since |
| StableHistory.KnownExactly | core/ecs_stable.py:81-82 | the stored list knows a revision if and only if it has succeeded and fewer than twenty others have since |
| StableHistory.LatestIs | core/ecs_stable.py:73-78 | the answer is the latest success of the log that is not of the excluded revision; any success counts if nothing is excluded |
| StableHistory.LatestIsNone | core/ecs_stable.py:73-78 | and empty if there is no such success |
| StableHistory.Store.LastSuccess | core/ecs_stable.py:73-78 | the most recent success in the whole log of a revision other than the excluded one |
| StableHistory.Store.IsKnownSuccess | core/ecs_stable.py:81-82 | whether the revision has succeeded and fewer than twenty others have since, over the whole log |
| SecretScrub.ScrubCodeContext | core/context_gate.py:593-628 | an empty file stays, a withheld one becomes a notice, any other is masked hit by hit over the shared table |
| SecretScrub.LabelsAre | core/context_gate.py:612 | a label is `MASKED` with any capitals and underscores behind it |
| SecretScrub.MaskShows | core/context_gate.py:609-625 | of a match only the masked part is taken out; for a new match stands its label with the next number, which is recorded with the masked part, for a recorded one the first of its placeholders, or the bare label if that has another one |
| SecretScrub.RestoreCodeSecrets | core/context_gate.py:638-644 | restoring entry by entry in the order of the table |
| SecretScrub.ReplaceIsSubst | core/context_gate.py:642-643 | replacing a placeholder in the text replaces exactly the places where it was put |
| SecretScrub.NumbersAreUnique | core/context_gate.py:619 | no two entries of a table have one placeholder |
| SecretScrub.RoundTrip | core/context_gate.py:593-644 | a file without a mark of its own, with secrets clear of placeholders and one label each, comes back exactly, also from a table that has grown since |
| SecretScrub.FilesRoundTrip | core/context_gate.py:593-644 | the same for all files that share a table, with unique placeholders over all of them |
| SecretScrub.MaskedTwiceIsLost | core/context_gate.py:614-625 | a key masked again inside a longer match is not restored |
| SecretLoss.ComesBackExactly | core/context_gate.py:593-644 | one more hit leaves a content restorable if and only if, for a new secret, it is clear of all placeholders, and, for a recorded one, it is found under its label, masked as a whole and clear of the placeholders restored no later than its own |
| SecretLoss.OtherTagIsLost | core/context_gate.py:614-618 | a secret found again under another tag is not restored |
| SecretLoss.CutPlaceholderHeals | core/context_gate.py:642-643 | a hit that cuts a placeholder and is restored all the same, because its own placeholder is put back first |
| Neutralize.Scan | core/context_gate.py:705-723 | the lines shown and the lines removed, with the block-comment flag carried along |
| Neutralize.NeutralizeInstructions | core/context_gate.py:690-723 | empty files and prompt files are left alone; otherwise the shown text and the removed lines |
| NeutralizedLines.GoesExactly | core/context_gate.py:705-723 | a line goes if and only if it reads like an instruction and stands in a document, on a comment line, or behind a line that opened a block comment which no line since has closed |
| NeutralizedLines.ShownExactly | core/context_gate.py:716-723 | every line is shown as it is, or, if it goes, as its own indentation with the mark behind it |
| NeutralizedLines.RemovedExactly | core/context_gate.py:716-723 | the removed lines are the raw lines that went, all of them and in order |
| NeutralizedLines.OpensExactly | core/context_gate.py:705-723 | a line opens a block comment if and only if its first opening has no closing behind it |
| Neutralize.RestoreNeutralized | core/context_gate.py:730-747 | the restored text |
| Neutralize.RoundTrip | core/context_gate.py:690-747 | whatever lines were removed, the text comes back exactly if and only if no line that stayed holds the mark |
| Neutralize.CleanInputComesBack | core/context_gate.py:690-747 | hence for every input without the mark |
| Neutralize.CountMismatch | core/context_gate.py:736-746 | if markers and removed lines differ in number, the outcome does not depend on the removed lines |
| Neutralize.NothingPending | core/context_gate.py:740-746 | and holds only lines that are no markers, cleared of the mark |
| CleanText.PassShrinks | core/code_spec.py:94-99 | each pass that changes the text shortens it or takes its breaks out, so the loop ends |
| CleanText.CleanOnce | core/code_spec.py:90-101 | the loop computes the cleaned text |
| CleanText.CleanIsNormal | core/code_spec.py:90-101 | one line, no control characters, no double blank, no output marker, no leading bullet, trimmed, within the limit |
| CleanKeeps.CleanKeepsTheRest | core/code_spec.py:90-101 | nothing else is lost: up to white space between words, the text without its control characters turns into the bullets and the rest by taking out occurrences of the marker one after the other; the result is that rest, or as much of it as the limit lets in, less a blank at the cut |
| CleanKeeps.MatchExactly | core/code_spec.py:84-85 | the marker stands wherever its words follow each other with any white space or none between them |
| CleanKeeps.ControlsOnly | core/code_spec.py:93 | exactly the listed control characters go |
| CleanText.CleanIsIdempotent | core/code_spec.py:90-101 | cleaning twice is cleaning once |
| CleanText.CleanFieldIsNormal | core/adr.py:167-183 | the form of a cleaned decision field |
| CleanKeeps.FieldKeepsTheRest | core/adr.py:167-183 | a decision field keeps its words, apart or together as they were, up to the limit |
| CleanText.CleanFieldIsIdempotent | core/adr.py:167-196 | canonical keys are stable |
| Spec.CleanList | core/code_spec.py:104-117 | the loop gives the clean sentences, the first of each up to case, up to the limit |
| Spec.CleanItemsAreNormal | core/code_spec.py:104-117 | clean, non-empty, different up to case, at most eight |
| SpecKeeps.ItemsCome | core/code_spec.py:104-117 | the sentences are those given, cleaned, in their order |
| SpecKeeps.ItemIsKept | core/code_spec.py:104-117 | none is dropped but an empty one, one that is there up to case, or one beyond the eighth |
| Spec.CollectCriteria | core/code_spec.py:130-153 | the loop gives the criteria of the specification function |
| Spec.CriteriaAreNormal | core/code_spec.py:120-153 | identifiers AC-1, AC-2 and so on without gaps, clean texts, no two with one key, at most fifteen |
| SpecKeeps.CriteriaCome | core/code_spec.py:130-153 | the criteria are those given, in their order, numbered anew, with the defaults for what is missing |
| SpecKeeps.CriterionIsKept | core/code_spec.py:130-153 | none is dropped but one without text, one that is there up to case and white space, or one beyond the fifteenth |
| Spec.NormalizeSpec | core/code_spec.py:120-162 | the normal form, or nothing if there is no criterion |
| SpecKeeps.NormalizedExactly | core/code_spec.py:154-162 | there is a normal form if and only if some item asks for a criterion with a text, and its goal is the cleaned goal |
| Spec.NormalizeIsIdempotent | core/code_spec.py:120-162 | normalising a normal form gives it back |
| Spec.IdsDiffer | core/code_spec.py:147 | no identifier repeats |
| CodePaths.StackIsLeading | core/code_output.py:50 | normalisation leaves ".." in front only |
| CodePaths.AcceptedSegments | core/code_output.py:43-55 | no part of an accepted path is empty, ".", ".." or a forbidden directory |
| CodePaths.StaysUnderRoot | core/code_output.py:43-55 | joined to any root, an accepted path names a place strictly under it |
| CodePaths.SamePaths | core/code_output.py:43-105 | both checks accept the same paths in the same form |
| PathMeaning.AcceptedExactly | core/code_output.py:43-55 | a path is accepted if and only if it is relative, its segments never lead out of the root and end below it, and none of those left is a forbidden directory; it becomes the place its segments lead to |
| PathMeaning.PlainPathIsAccepted | core/code_output.py:43-55 | hence every plain path of real names is accepted as itself, however many segments it has |
| CodePaths.AcceptedAgain | core/code_output.py:43-55 | an accepted path is accepted again as itself if and only if trimming leaves it alone |
| CodePaths.LeftoverBlank | core/code_output.py:47-50 | a path whose accepted form is not accepted again |
| CodePaths.ParseOps | core/code_output.py:90-117 | the operations of a proposal, or its first bad one |
| PathMeaning.WishExactly | core/code_output.py:90-109 | when an operation is refused, when it is passed over, and what it becomes otherwise, by where the segments of its path lead |
| PathMeaning.WrongExactly | core/code_output.py:103-106 | the bad operations are the refused ones and those whose path, up to case, an earlier one writes |
| CodePaths.KeptAreDistinct | core/code_output.py:103-106 | no two accepted operations write one path, whatever its case |
| CodePaths.OpsAreSafe | core/code_output.py:90-115 | every accepted operation has a path the other check accepts, with its own content |
| CodePaths.SafeOpsAreKept | core/code_output.py:90-115 | no operation with a safe path is dropped |
| Sorting.SortedIsOrdered | core/aws_cleanup.py:776 | the sort behind cleanup, versions and replay orders its input |
| Sorting.SortedIsStable | core/aws_calls.py:663 | and keeps equal keys in their order |

## Left out

- `ensure_edge` and `rollback` in core/aws_edge.py: creating and removing load balancers, target groups and web ACLs.
- 443 listener: modelled by the states it passes through; certificate updates of an existing listener are not.
- OriginRotation.NoEdgeIsLockedOut: histories start from an open listener without a header rule and at most one origin,
  because with several origins the secret reported live need not be the one that is sent; a header changed by hand can
  send a value that was never accepted, and what then holds is `RoomExactly`.
- OriginRotation: headers changed by hand while a deployment is under way are in the histories, but what that deployment
  keeps is said up to the change.
- OriginRotation: the distribution is found by every deployment; a deployment waits for the listener calls of the one
  before it.
- Several listeners locked one after the other by one deployment: each is modelled on its own.
- Header values with wildcards, and header rules beside the one the lock looks for, match by equality here.
- CloudFront: finding an old distribution by its comment, and every configuration field that `Edit` does not name.
- File plan: links, paths outside the workspace, read-only attributes, parent directories that stay after a rollback,
  and byte order marks: the codec drops one in front, and reads the first one or two bytes of one as an empty file.
- FilePlanWorkspace.Workspace.Rollback: paths whose recovery itself fails are a parameter, and nothing is promised for
  them.
- FilePlanWorkspace.Workspace.ApplyFilePlan: the list of changed paths that the call returns.
- ADR allocation: the query that reserves nothing is in `Core.Allocate` but is no step of the machine; a scan that
  raises ends the call before its first locked step.
- SingleFlight: the worker thread of a cancelled leader, which runs on unseen, and the event built from an answer.
- Client tracking: building rules from a syntax tree; modules arrive as scopes with their assignments, calls and
  returns. Calls of the AWS command line are not collected.
- PolicySplit.SplitPolicy: statements are sizes, and the version text counts by its length; placeholders measured at
  their longest value and white space are part of the size.
- Inline policies that fit are put directly and are no more than one call, as are the trust policy and the role.
- IAM: leftover policies stay in the account, a page of attached policies is complete, and a statement counts as kept
  when one of the same identifier and size is there.
- Cleanup: kinds without an order, which the code fails on, and how each kind is deleted.
- StableHistory: services are told apart by region, cluster and name, which the code joins with slashes into one key,
  and the time of a success plays no part; the store starts empty; entries of other shapes in a store written by hand.
- SecretScrub.Mask: the label comes from the pattern; the code searches for it in the masked match, which is the same
  as long as the text has no mark of its own. Masking without a table, which is never put back.
- SecretLoss.ComesBackExactly: of a recorded match that is masked only in part it is said for matches that are clear of
  placeholders and whose ends make no mark when written twice; otherwise a mark that the match makes with its
  surroundings may stand for anything.
- Neutralize: line numbers, kinds and shortened copies of removed lines.
- Spec: `draft_from_llm` and the formatting of prompts and documents; numbers and other values given as text.
- SpecKeeps.ItemIsKept: what the words "up to case" mean is the folding given as a parameter.
- CodePaths: taking the object out of the model's answer, and the language and rationale of an operation.
- The role and policy statements themselves, the recorder of calls at run time, prompts, messages and the apps.
