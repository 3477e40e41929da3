# Vibecrafted distribution and runtime model

This Dafny project models the parts of Vibecrafted whose guarantees span many
operations, and proves those guarantees:

* **Distribution payloads** (`PathPolicy`, `PayloadRules`, `Utf8`, `SymlinkTarget`,
  `TreeRecord`, `Content`, `RecordWire`, `FileTree`, `GitPayload`, `GitAgreement`,
  `StagedRevision`, `Archive`, `ArchiveRoundTrip`, `ArchiveContents`, `ArchiveChecks`,
  `RevisionArchive`, `Publish`). A payload
  tree is captured from Git objects, from a file system walk and from tar members;
  each capture becomes a set of entries, one length-prefixed byte stream and one
  record. The stream is canonical and decodable, the captures agree, an archive is
  accepted exactly when it holds the recorded payload and then holds no secret and
  no link out of it, a revision leads to such an archive exactly under a stated
  condition, and publication can be rolled back.
* **The ACP session protocol** (`AcpSession` and the modules named `Acp...`).
  The main thread, the prompt workers and the client rendezvous are atomic steps
  over shared fields; the guarantees are invariants of every interleaving. A log
  of what the outside can see gives them their meaning. `AcpObjects` holds the
  mutable objects, whose methods refine the steps.
* **The transcript pump** (`LineSplit`, `Transcript`, `DryRun`), **the agent
  stream parser** (`ToolBurst`, `BurstSummary`, `AgentStream`, `PaneText`,
  `Telemetry`, `TokenFields`), **the literal scan** (`Occurrences`, `LiteralScan`),
  **the provenance manifest** (`Ordering`, `Json`, `Provenance`, `ProvenanceFile`,
  `ManifestContents`, `BatchBlobs`, `BatchLines`), **version rewriting**
  (`VersionLines`, `TomlVersion`, `TomlLines`, `LockVersion`, `LockBlocks`, `Semver`,
  `VersionBump`, `VersionDeclarations`), **corpus sync** (`CorpusSync`,
  `CorpusDecisions`, `CorpusLaws`), **the Slack provider** (`SlackInstall`,
  `TreeDigest`) and **the RTF licence** (`Utf16`, `Decimals`, `Rtf`, `LicenseLines`).

SHA-256 is any function to 32 bytes. Where a result needs it to tell two inputs
apart, the contract names the finite set of strings that are hashed and asks only
that no two of them collide. File contents, Git objects, tar member headers and
the answers of external programs are parameters.

Where the source loops over mutable state the model does too, and each such
method is proved against a function or predicate whose own properties are the
lemmas below. What such a function computes is also stated without it: as the
rule, format or field list that the source documents, with its literal spellings.

## What the code does not do

Some expected properties are false of the code. Each has a lemma that shows the
failure, and a lemma that says exactly when the property holds.

* The path policy is not closed under ancestors: `config/x.pem/a.txt` is included
  although its directory is denied (`PathPolicy.IncludedBelowForbidden`); a
  directory above an included path is denied exactly when its own name has a
  denied suffix (`PathPolicy.AncestorOfIncluded`).
* The lexical check accepts links that circle (`SymlinkTarget.SelfLinkCircles`);
  in a tree whose links are not reached through other links it implies the
  resolving check exactly for the links whose chain does not circle
  (`SymlinkTarget.LexicalImpliesResolved`).
* The record derived from Git objects and the record of the materialised tree
  differ exactly when some entry lies below a directory named
  `source-provenance.json`: the walk skips that directory's own entry
  (`GitAgreement.GitAndWalkAgree`, `GitAgreement.CarrierDirectoryDisagrees`;
  `GitAgreement.NestedDisagrees` shows such a revision). Such a revision, and one
  with a denied directory above an entry, cannot be staged
  (`StagedRevision.StageRevision`).
* `session/load` puts a new object behind a session id while the old object's
  worker may still run. Then, and only then, a second worker can start under the
  id, and a cancel of the id misses the first one's run
  (`AcpNames.SecondWorkerExactly`, `AcpNames.StaleExactly`,
  `AcpNames.CancelStopsExactly`; the runs are `AcpExamples.SecondWorker` and
  `AcpExamples.CancelMisses`).
* A reply that arrives before the permission request it names still grants it
  (`AcpExamples.EarlyReply`); without such replies every grant follows its request
  (`AcpTheorems.GrantsFollowRequests`), and a launch is out of order exactly when
  its request was granted by an early reply and by no later one
  (`AcpTheorems.OutOfOrderExactly`).
* A prompt stays unanswered exactly when sending the response of last resort
  fails (`AcpTheorems.OneResponsePerRequest`, `AcpExamples.AnswerLost`).
* The literal scan counts a needle exactly, however the file is cut, exactly if
  the needle has the maximal length and does not overlap itself
  (`LiteralScan.ExactlyTheLongestBorderless`): a shorter one is counted again from
  the carried tail (`LiteralScan.AnyShortNeedleTwice`), and of overlapping occurrences
  one is missed (`LiteralScan.OverlapMissed`, `Occurrences.CountsEverythingExactly`).
* A chunk boundary between CR and LF makes two lines of one
  (`Transcript.LinesOfAnyChunking`, `Transcript.ChunkingIsVisible`), and without
  the final flush of `filter_stream` a call is not shown exactly when the stream
  ends inside its burst (`AgentStream.ShownWithoutFlush`, `AgentStream.OneCallHidden`).
* Between chunks of equal rank a corpus keeps the one of the earlier extension
  group, not of the earlier path as the docstring says
  (`CorpusSync.GroupBeatsPath`); the docstring is right exactly when no later group
  holds an equally ranked chunk of that id with a smaller path
  (`CorpusSync.TiesByPathExactly`). A file that is no UTF-8 stops the load although
  the module promises never to crash on one bad chunk (`CorpusSync.LoadCorpus`), and
  the decision log can be read exactly if no line is JSON without being an object
  (`CorpusDecisions.LoadsExactlyWhenReadable`). A decision logged for one side picks the other chunk when the sides are swapped
  (`CorpusDecisions.LoggedSideFlips`).
* An explicit version is written untrimmed. `--check` accepts what an update wrote
  exactly if the request was trimmed (`VersionBump.UpdateThenCheck`); after the
  request `1.2.3` with a space behind it nothing is accepted
  (`VersionBump.UntrimmedRefused`).
* A declaring file with CR LF or CR line ends comes back with LF on every line, so
  changing the version in a table and changing it back restores exactly the files
  without CR
  (`VersionBump.ThereAndBack`, `VersionBump.CrLfDeclaration`).
* The docstring of `_version_projections` says that VERSION stands alone when no
  Python file exists; that holds exactly when no Cargo manifest exists either, and
  else every update and check is refused (`VersionBump.WithoutPython`,
  `VersionBump.CargoAlone`).
* An install of the Slack provider never looks at `node_modules`: once it has
  finished, `doctor` accepts exactly if the published generation has them
  (`SlackInstall.DoctorExactly`, `SlackInstall.BareInstall`).
* The provider's digest stream determines the files exactly when there is at most
  one, with at most one NUL byte (`TreeDigest.SharedExactly`). Even lists with the
  same paths can share a stream, a drift that no digest comparison sees
  (`TreeDigest.SamePathsDrift`).

## Model

| member | source | states |
|---|---|---|
| TreeRecord.DecodeInvertsWire | scripts/distribution_manifest.py:30-41 | a decoder recovers the ordered entries from the byte stream of the tree wire format |
| TreeRecord.StreamIsCanonical | scripts/distribution_manifest.py:1024-1059 | two accepted inputs give the same stream exactly when they hold the same entries, in whatever order they arrived |
| TreeRecord.RecordIdentifiesEntries | scripts/distribution_manifest.py:1024-1059 | equal records mean equal entries, and conversely, unless the two hashed streams collide |
| TreeRecord.RecordFromEntries | scripts/distribution_manifest.py:1024-1059 | succeeds exactly for non-empty, duplicate-free, encodable entries; duplicate paths and the empty input get their own errors |
| TreeRecord.SortedIsUnique | scripts/distribution_manifest.py:1028-1033 | an arrangement of given entries strictly sorted by path bytes is unique |
| TreeRecord.DigestOrdered | scripts/distribution_manifest.py:1034-1059 | the digest loop hashes exactly the wire form of the ordered entries, or refuses a non-canonical one |
| RecordWire.RecordIsDocumented | scripts/distribution_manifest.py:30-41 | the record of a payload is the digest of the documented stream, octet by octet: domain, count, then per node in path-byte order its letter, lengths, path, mode and payload; and the number of nodes |
| RecordWire.PathOrderExists | scripts/distribution_manifest.py:33 | the nodes of every payload can be put in that order |
| RecordWire.LessExactly | scripts/distribution_manifest.py:1028 | path bytes are ordered by their first difference, a proper prefix first |
| RecordWire.ExecutableExactly | scripts/distribution_manifest.py:37-38 | a file counts as executable exactly if a bit of 0o111 is set |
| PathPolicy.AncestorOfIncluded | scripts/distribution_manifest.py:953-975 | a directory above an included path is denied exactly when its own name has a denied suffix, and is otherwise included |
| PathPolicy.IncludedBelowForbidden | scripts/distribution_manifest.py:960-965 | config/x.pem/a.txt is included while config/x.pem is denied |
| PathPolicy.PosixInjective | scripts/distribution_manifest.py:978-997 | two relative paths with the same POSIX bytes are the same path |
| PathPolicy.PartsOfPosix | scripts/distribution_manifest.py:926-931 | splitting the POSIX spelling of a path gives back its components |
| PayloadRules.IncludedExactly | scripts/distribution_manifest.py:934-975 | a path is included exactly if its top is allowed and either it is a needed lock file, or no component is a denied name, a live env file or a private key and the last has no denied ending: the rules spelled out |
| PayloadRules.IncludedHasNoSecrets | scripts/distribution_manifest.py:934-965 | no component of an included path is .env or one of its live variants, or names a private key in any case, but for .pub and .example |
| PayloadRules.PartsOfJoined | scripts/distribution_manifest.py:926-931 | what stands before a slash of a spelling and what stands behind it are read apart |
| PayloadRules.PartsOfName | scripts/distribution_manifest.py:926-931 | a spelling without slash is one name, but the empty one and the dot are none |
| Utf8.ValidExactly | scripts/distribution_manifest.py:978-997 | a byte string is accepted as UTF-8 exactly if it encodes some sequence of Unicode scalar values, as in section 3 of RFC 3629 |
| SymlinkTarget.SymlinkTargetError | scripts/distribution_manifest.py:1000-1021 | accepts a target exactly when it is UTF-8, relative and non-empty, no prefix of its components climbs above the root, and the normalised path is included |
| SymlinkTarget.NormalStep | scripts/distribution_manifest.py:1008-1018 | on components that stay inside, the depth is the length of the normalised path, and one more component pushes or pops a name |
| SymlinkTarget.LexicalImpliesResolved | scripts/distribution_manifest.py:1152-1173 | in a tree whose links are not reached through other links, a lexically accepted link passes the resolving check unless its chain of links circles; if it does, no number of hops leads to an end |
| SymlinkTarget.ResolvedExactly | scripts/distribution_manifest.py:1152-1173 | with a given number of hops the resolving check accepts such a link exactly when its chain of links ends within them |
| SymlinkTarget.RankedLinksResolve | scripts/distribution_manifest.py:1152-1173 | links that lead ever further down a ranking pass the resolving check |
| SymlinkTarget.SelfLinkCircles | scripts/distribution_manifest.py:1000-1021 | a link to itself is accepted lexically and circles |
| Content.RecordInAnyOrder | scripts/distribution_manifest.py:1101-1149 | the record of a payload does not depend on the order of capture |
| Content.RecordIdentifiesContent | scripts/distribution_manifest.py:1101-1149 | two payloads have the same record exactly when they agree in paths, kinds, executable bits, bytes and targets, collisions among the hashed strings apart |
| FileTree.WalkEntries | scripts/distribution_manifest.py:1199-1213 | the pruning walk lists each path whose ancestors are all descended into, once, and nothing else |
| FileTree.RecordFromTree | scripts/distribution_manifest.py:1101-1149 | succeeds exactly when every visited path passes the policy, and then yields the record of what the walk sees |
| FileTree.CaptureOne | scripts/distribution_manifest.py:1113-1143 | one path is captured exactly when the policy accepts it, as the entry of its node |
| ArchiveContents.CapturedIsAdmitted | scripts/distribution_manifest.py:1101-1149 | every node of a captured payload is at an admitted path without secrets, and its link, if it is one, leads to an admitted path without climbing out |
| GitPayload.GitTreeEntries | scripts/distribution_manifest.py:428-455 | the included rows of a revision, the last row of a path counting; an unsafe raw path is an error; ArchiveContents.RowCountsExactly says which rows are included |
| ArchiveContents.RowCountsExactly | scripts/distribution_manifest.py:428-455 | a row becomes an entry exactly if it is relative, has no .. component, is admitted by the payload rules and is not the carrier |
| ArchiveContents.EntriesExactly | scripts/distribution_manifest.py:428-455 | the entries have a path for each row that counts, with the mode, kind and object of the last such row |
| ArchiveContents.SomeRowDecides | scripts/distribution_manifest.py:428-455 | for the path of each row that counts there is such a last row |
| GitPayload.ExpectedGitPayload | scripts/distribution_manifest.py:539-546 | the directories are exactly the proper ancestors of the included entries |
| GitPayload.MaterializeGitPayload | scripts/distribution_manifest.py:549-584 | succeeds exactly when every entry is supported and no two conflict, and then yields the tree the objects describe |
| ArchiveContents.SupportedExactly | scripts/distribution_manifest.py:562-577 | an entry is supported exactly if it is a blob of mode 100644, 100755 or 120000 whose object is there and, for 120000, leads to an admitted path |
| ArchiveContents.MaterializedExactly | scripts/distribution_manifest.py:549-584 | the tree of a revision has each entry with its bytes, executable for 100755 and a link for 120000, a directory for each proper prefix of an entry, and nothing else |
| GitPayload.RecordFromGit | scripts/distribution_manifest.py:587-616 | the record derived from the objects is the record of the tree they describe |
| GitAgreement.GitAndWalkAgree | scripts/distribution_manifest.py:539-616 | when no directory bears the carrier's name, the walk over the materialised tree succeeds exactly when the derivation does and no ancestor is denied, and both give one record |
| GitAgreement.CarrierDirectoryDisagrees | scripts/distribution_manifest.py:1101-1149 | with a directory of the carrier's name both captures succeed and differ |
| GitAgreement.NestedDisagrees | scripts/distribution_manifest.py:1101-1149 | a revision with the entry source-provenance.json/a.txt: both captures succeed and differ |
| StagedRevision.AssertStagedMatches | scripts/distribution_manifest.py:619-671 | reports no error exactly when the included paths of the staged tree are the expected ones and each has the kind, executable bit and blob id of its entry |
| StagedRevision.MatchesInWords | scripts/distribution_manifest.py:619-671 | each included path must be a directory where an entry lies below it, and else a link for mode 120000, an executable file for 100755 or a plain one for 100644, with the blob id of its entry |
| StagedRevision.MatchesExactly | scripts/distribution_manifest.py:619-671 | so exactly when what the walk sees is the tree that the objects describe, blob id collisions apart |
| StagedRevision.MaterializedMatches | scripts/distribution_manifest.py:549-671 | a materialised revision passes exactly when no directory above an entry is denied and none bears the carrier's name |
| StagedRevision.StageRevision | scripts/distribution_manifest.py:817-873 | deriving the record, materialising, comparing with the objects and with the record all succeed exactly when the record can be derived and no such directory exists |
| Archive.WriteArchive | scripts/distribution_manifest.py:1631-1823 | succeeds exactly when every visited path is allowed and is a directory, symlink or plain file, which the header normalisation demands, with one member for each and one for the root |
| Archive.VerifyArchive | scripts/distribution_manifest.py:1826-1939 | reports no error exactly when the members are well formed, name one root, hold the canonical carrier, and unpack to a payload with the recorded identity |
| Archive.InspectMember | scripts/distribution_manifest.py:1843-1914 | one member passes exactly when its name, kind, mode and target are acceptable, and contributes the entry of its node |
| ArchiveContents.MemberExactly | scripts/distribution_manifest.py:1843-1914 | a member passes exactly if it is the root directory, or bears the one spelling of a path of the payload and has the kind, mode, size and target that path demands |
| ArchiveRoundTrip.WrittenArchiveAccepted | scripts/distribution_manifest.py:1783-1939 | every archive written from a staged payload is accepted, and unpacks to that payload up to canonical modes |
| ArchiveRoundTrip.AcceptedArchiveIsThePayload | scripts/distribution_manifest.py:1826-1939 | every accepted archive unpacks to exactly the payload its provenance was computed from, plus the canonical carrier |
| ArchiveContents.AcceptedIsHarmless | scripts/distribution_manifest.py:1826-1939 | whatever passes verification unpacks to admitted paths without secrets, plain modes, and links that stay inside, beside the carrier |
| ArchiveChecks.AssertMatchesStaged | scripts/distribution_manifest.py:1942-2028 | reports no error exactly when the members name one root and each staged node once, with its type, canonical mode, target and digest |
| ArchiveChecks.MatchingUnpacks | scripts/distribution_manifest.py:1942-2028 | an archive that passes unpacks to exactly what the walk sees of the staged files, digest collisions apart; its members are named below the root and have canonical modes |
| ArchiveChecks.AssertMatchesGit | scripts/distribution_manifest.py:1680-1781 | reports no error exactly when the members name the expected paths of the revision once, each with the type, mode and blob id of its entry, and the carrier with the provenance |
| ArchiveChecks.MatchingRevisionUnpacks | scripts/distribution_manifest.py:1680-1781 | an archive that passes unpacks to exactly the tree that the objects describe, and to a carrier with the provenance, blob id collisions apart; its members are named below the root and have canonical modes |
| RevisionArchive.WrittenMatchesStaged | scripts/distribution_manifest.py:1783-2028 | every written archive matches the staged files |
| RevisionArchive.WrittenMatchesGit | scripts/distribution_manifest.py:1680-1823 | the archive of a staged revision matches the revision |
| RevisionArchive.ArchiveStaged | scripts/distribution_manifest.py:2086-2096 | for a staged payload writing and comparing with the staged files and the provenance succeed |
| RevisionArchive.CreateArchive | scripts/distribution_manifest.py:2031-2103 | from a revision to an archive: staging, writing and all comparisons succeed exactly when the record can be derived, no directory above an entry is denied and none bears the carrier's name, and the archive unpacks to the tree the objects describe; it holds only admitted paths without secrets, plain modes and links that stay inside |
| Publish.Parent.PublishStaged | scripts/distribution_manifest.py:1473-1497 | after every operation the old tree is at the destination or in the backup, or the complete new one is at the destination; a raised error keeps the old tree and the candidate |
| AcpTheorems.OneWorkerPerSession | vibecrafted-acp/vibecrafted_acp/server.py:503-514 | in every interleaving a session object has at most one prompt worker, exactly while prompt_started is set |
| AcpNames.OneWorkerPerId | vibecrafted-acp/vibecrafted_acp/server.py:395-514 | a session id has at most one prompt worker, unless its session was restored while one of them lived |
| AcpNames.SecondWorkerExactly | vibecrafted-acp/vibecrafted_acp/server.py:485-514 | after a prompt two workers run under its session id exactly if one of the id was stale: its object replaced by a restore |
| AcpNames.StaleExactly | vibecrafted-acp/vibecrafted_acp/server.py:444 | a worker is stale exactly if its session was restored during its life |
| AcpExamples.SecondWorker | vibecrafted-acp/vibecrafted_acp/server.py:485-514 | create, prompt, load, prompt: two workers under one session id |
| AcpTheorems.OneResponsePerRequest | vibecrafted-acp/vibecrafted_acp/server.py:531-693 | a prompt request never gets two responses, and one that no worker will answer any more has one, as section 5 of the JSON-RPC 2.0 Specification asks, exactly unless sending the response of last resort failed |
| AcpAnswers.AnswerAfterEnd | vibecrafted-acp/vibecrafted_acp/server.py:733-744 | a prompt that came to the end of its run or lifecycle is answered, after one reading of the flag behind that end, cancelled exactly if a cancel of its session came before that reading or the run was stopped, else end_turn exactly if it was completed, and refused if not |
| AcpAnswers.AnswerWithoutEnd | vibecrafted-acp/vibecrafted_acp/server.py:538-642 | a prompt that came to no end is never answered end_turn: an unknown command is refused, another prompt only if it was a hard stop, and a cancelled answer comes after a cancel |
| AcpAnswers.AnswerAfterFailure | vibecrafted-acp/vibecrafted_acp/server.py:669-689 | the exception handler answers cancelled exactly if the session was cancelled by then, and else refuses |
| AcpAnswers.WorkMayFail | vibecrafted-acp/vibecrafted_acp/server.py:669-689 | a worker may fail wherever it is at work, and its exception handler then answers once |
| AcpAnswers.HandlersMayFail | vibecrafted-acp/vibecrafted_acp/server.py:865-889 | an exception in a message handler ends the reading of messages; only the workers go on |
| AcpAnswers.PromptsGoTheirWay | vibecrafted-acp/vibecrafted_acp/server.py:538-650 | an unknown command starts nothing, a ship prompt only lifecycles, any other prompt only direct runs, and only hard stops ask |
| AcpExamples.AnswerLost | vibecrafted-acp/vibecrafted_acp/server.py:669-693 | if both sends fail, a heard prompt is never answered |
| AcpTheorems.HardStopsNeedGrants | vibecrafted-acp/vibecrafted_acp/server.py:556-618 | before each launch for a hard-stop prompt stand that prompt's permission request and an allow-once reply with its id |
| AcpTheorems.GrantsFollowRequests | vibecrafted-acp/vibecrafted_acp/server.py:60-111 | if no reply comes before the request it names, each launch for a hard-stop prompt follows its permission request and then an allow-once reply to it |
| AcpTheorems.OutOfOrderExactly | vibecrafted-acp/vibecrafted_acp/server.py:60-111 | in every run a hard-stop launch does not follow a grant of its request exactly when an early reply granted the request and no later one did |
| AcpTheorems.GrantedUnasked | vibecrafted-acp/vibecrafted_acp/server.py:78-105 | a request is granted without any further reply exactly when an allow-once reply with its id is stored already |
| AcpExamples.EarlyReply | vibecrafted-acp/vibecrafted_acp/server.py:60-105 | a reply sent before its request lets a hard-stop launch through |
| AcpTheorems.ResponsesReachOneWaiter | vibecrafted-acp/vibecrafted_acp/server.py:60-111 | a permission id belongs to one worker, and its response is taken by at most one waiter |
| AcpTheorems.RunsLaunchedOnce | vibecrafted-acp/vibecrafted_acp/server.py:706-726 | no run id is launched twice, a session's own id included |
| AcpTheorems.OneLaunchAfterCancel | vibecrafted-acp/vibecrafted_acp/server.py:632-641 | at most one direct run of a session is launched after its first cancel |
| AcpTheorems.CancelledRunsAreStopped | vibecrafted-acp/vibecrafted_acp/server.py:727-738 | a run whose await had not ended when a cancel took the lock of its session object has its stop requested once the handler and its worker have moved on |
| AcpNames.CancelledIdIsStopped | vibecrafted-acp/vibecrafted_acp/server.py:836-853 | the same for a cancel of the session id, if the worker was not stale at the cancel |
| AcpNames.CancelReachesExactly | vibecrafted-acp/vibecrafted_acp/server.py:836-848 | the locked section of a cancel marks a worker's session exactly if the worker is not stale |
| AcpNames.CancelStopsExactly | vibecrafted-acp/vibecrafted_acp/server.py:836-853 | a run awaited and not yet stopped when its session id is cancelled is stopped by the handler exactly if its worker is not stale |
| AcpExamples.CancelMisses | vibecrafted-acp/vibecrafted_acp/server.py:836-853 | after a load a cancel of the same session id leaves the awaited run alone |
| AcpTheorems.NoStopWithoutCancel | vibecrafted-acp/vibecrafted_acp/server.py:836-853 | a run is only ever stopped after a cancel of the session that launched it |
| AcpLinks.StopsCancelledStep | vibecrafted-acp/vibecrafted_acp/server.py:727-851 | every step keeps that a stop comes after a cancel of whatever session the run is linked to |
| AcpTheorems.RunKeepsInvariant | vibecrafted-acp/vibecrafted_acp/server.py:531-693 | every state of every interleaving of workers, cancels, replies and failures satisfies the protocol invariant |
| AcpStops.StopsPromisedStep | vibecrafted-acp/vibecrafted_acp/server.py:727-731 | every step passes on the promise that an owed stop will be requested, by the worker or by the cancel handler |
| AcpStops.RunsHeldStep | vibecrafted-acp/vibecrafted_acp/server.py:733-739 | a launched run that was neither stopped nor awaited stays with the worker that launched it |
| AcpRuns.ChosenRunIsNew | vibecrafted-acp/vibecrafted_acp/server.py:706-714 | the run a worker chooses is no other worker's, whether it is the session's own id or a reserved one |
| AcpSafety.AllSettledStep | vibecrafted-acp/vibecrafted_acp/server.py:669-693 | every step keeps: at most one outcome for each request, none for an unheard one, and a pending worker for each unsettled one |
| AcpPermission.LaunchesPermittedStep | vibecrafted-acp/vibecrafted_acp/server.py:573-641 | every step keeps the grants before the launches of hard-stop prompts |
| AcpPermission.CollectedOnceStep | vibecrafted-acp/vibecrafted_acp/server.py:92-102 | every step keeps that a response is collected at most once |
| AcpObjects.ClientRequests.Take | vibecrafted-acp/vibecrafted_acp/server.py:92-105 | the end of the wait changes the rendezvous exactly as the protocol step, and only an allow-once response lets the worker on |
| AcpObjects.ClientRequests.Resolve | vibecrafted-acp/vibecrafted_acp/server.py:60-65 | delivers a response as the protocol step does; the last one under an id wins |
| AcpObjects.SharedSession.ChooseRun | vibecrafted-acp/vibecrafted_acp/server.py:706-714 | the choice of the run is the protocol step: the own id for a first prompt of a new session, else the reserved id |
| AcpObjects.SharedSession.MarkLaunched | vibecrafted-acp/vibecrafted_acp/server.py:727-731 | the critical section after a launch is the protocol step, and says whether the worker must stop the run |
| AcpObjects.SharedSession.MarkCancelled | vibecrafted-acp/vibecrafted_acp/server.py:844-851 | the critical section of a cancel is the protocol step, and says which run the handler must stop |
| AcpObjects.SharedSession.TryStart | vibecrafted-acp/vibecrafted_acp/server.py:503-507 | a prompt starts exactly when none is running |
| LineSplit.SplitAfterTerminator | vibecrafted-acp/vibecrafted_acp/server.py:816-823 | cutting after a terminator leaves the lines alone, except that a cut inside CR LF makes exactly one more |
| LineSplit.LinesAreTheInput | vibecrafted-acp/vibecrafted_acp/server.py:817 | the lines of a byte string concatenate to it |
| LineSplit.LinesAreLines | vibecrafted-acp/vibecrafted_acp/server.py:817-820 | terminators stand only at line ends, and only the last line may lack one |
| LineSplit.LinesSpelledOut | vibecrafted-acp/vibecrafted_acp/server.py:817-820 | no line is empty, LF stands only at the end of a line and CR only there or before that LF, and every line but the last has one |
| Transcript.NothingLost | vibecrafted-acp/vibecrafted_acp/server.py:804-823 | over any chunks, the bytes handed on plus the pending line are the bytes received |
| Transcript.LinesOfAnyChunking | vibecrafted-acp/vibecrafted_acp/server.py:804-835 | any chunking hands on one line more than the whole input for each boundary inside CR LF, so the lines agree exactly when there is none |
| Transcript.ChunkingIsInvisible | vibecrafted-acp/vibecrafted_acp/server.py:804-835 | for streams without CR the lines do not depend on the chunking |
| Transcript.ChunkingIsVisible | vibecrafted-acp/vibecrafted_acp/server.py:816-823 | CR LF cut in two is handed on as two lines |
| Transcript.Observe | vibecrafted-acp/vibecrafted_acp/bridge.py:156-181 | reads at most 64 KiB from the offset on, and exactly the bytes between the old and the new offset |
| Transcript.ReadsOn | vibecrafted-acp/vibecrafted_acp/bridge.py:163-171 | of a transcript that only grows a read yields the next 65536 bytes, or all that are left, and where they end |
| Transcript.Stream.EmitStream | vibecrafted-acp/vibecrafted_acp/server.py:804-835 | hands on and holds back what the chunks received so far call for; a final call holds nothing |
| Transcript.Stream.PumpOnce | vibecrafted-acp/vibecrafted_acp/server.py:783-802 | the lines and the pending bytes follow the growing transcript up to the offset; the final pump delivers all of it exactly when at most 64 KiB was unread |
| DryRun.AwaitRun | vibecrafted-acp/vibecrafted_acp/bridge.py:183-218 | the polling loop ends under cancels at any moment, and hands on every chunk of an uncancelled run |
| DryRun.Run.Observe | vibecrafted-acp/vibecrafted_acp/bridge.py:127-154 | yields the next chunk, or nothing once cancelled or exhausted |
| ToolBurst.CallsAddUp | vibecrafted-core/vibecrafted_core/agent_stream.py:188-209 | the Nx counts of a rendered burst add up to its calls, and the heads of a part to its calls that have one |
| ToolBurst.RenderToolBurst | vibecrafted-core/vibecrafted_core/agent_stream.py:173-209 | the loops over dictionaries render exactly the specified summary, in order of first appearance |
| BurstSummary.SummaryExactly | vibecrafted-core/vibecrafted_core/agent_stream.py:187-209 | the summary of two calls or more bears the first stamp and the last, and of each tool, in order of first appearance, the number of its calls and its command heads with their numbers, in order of first appearance too |
| AgentStream.NoCallLost | vibecrafted-core/vibecrafted_core/agent_stream.py:387-414 | the rendered bursts followed by the held calls are all tool calls in order, and what is held is the open end of them |
| AgentStream.CallsBeforeText | vibecrafted-core/vibecrafted_core/agent_stream.py:410-414 | when text is emitted every earlier call is already on the pane |
| AgentStream.PaneOnlyGrows | vibecrafted-core/vibecrafted_core/agent_stream.py:1289-1299 | what was rendered is never taken back |
| AgentStream.OneBanner | vibecrafted-core/vibecrafted_core/agent_stream.py:609-624 | a session's banner appears once if the session was ever announced, and otherwise never |
| AgentStream.ShownWithoutFlush | vibecrafted-acp/vibecrafted_acp/server.py:824-835 | without the final flush every call is shown exactly when the stream does not end inside a burst |
| AgentStream.OneCallHidden | vibecrafted-core/vibecrafted_core/agent_stream.py:1289-1303 | of a stream of one call nothing is shown without the flush |
| PaneText.TextsAreShown | vibecrafted-core/vibecrafted_core/agent_stream.py:410-436 | the pane without its bursts is what the stream said, in order: every text, and of each session the first banner |
| PaneText.CallsAreNoted | vibecrafted-core/vibecrafted_core/agent_stream.py:387-392 | the calls are those of the stream, in order, with their stamps and names |
| PaneText.NamedExactly | vibecrafted-core/vibecrafted_core/agent_stream.py:389-391 | a call bears the name without the white space around it, or a question mark if nothing is left |
| PaneText.FragmentsAreJoined | vibecrafted-core/vibecrafted_core/agent_stream.py:394-401 | a call followed by fragments of its input says what the longest run of them says in which a command is found, or what it said itself |
| PaneText.SessionIsLast | vibecrafted-core/vibecrafted_core/agent_stream.py:609-618 | the session is the one of the last banner that has an id |
| AgentStream.FilterStream | vibecrafted-core/vibecrafted_core/agent_stream.py:1289-1303 | ends with nothing held: its output shows every call |
| AgentStream.AgentStreamParser.AbsorbToolInput | vibecrafted-core/vibecrafted_core/agent_stream.py:394-401 | a fragment reaches only the last held call, and only while the burst is open |
| AgentStream.AgentStreamParser.ShowBanner | vibecrafted-core/vibecrafted_core/agent_stream.py:609-624 | takes the banner action on the parser's fields |
| Telemetry.AnyOrderSameTotals | vibecrafted-core/vibecrafted_core/agent_stream.py:581-600 | a worklist that removes nodes in any order ends after one step per object, with the totals of the structural recursion |
| Telemetry.Meter.RecordNested | vibecrafted-core/vibecrafted_core/agent_stream.py:581-600 | the worklist loop ends and adds exactly the totals of the structural recursion over nested objects |
| Telemetry.Meter.RecordUsage | vibecrafted-core/vibecrafted_core/agent_stream.py:521-561 | one usage object adds each provider's first usable spelling of each count, and is an event exactly when it carries one |
| TokenFields.InputCount | vibecrafted-core/vibecrafted_core/agent_stream.py:529-533 | the input count is the first truthy of input_tokens, inputTokens and prompt_tokens, whatever the other fields hold |
| TokenFields.OutputCount | vibecrafted-core/vibecrafted_core/agent_stream.py:557-561 | the output count is the first truthy of output_tokens, outputTokens and completion_tokens |
| TokenFields.CachedCount | vibecrafted-core/vibecrafted_core/agent_stream.py:534-547 | the cached count is the first of its seven spellings that is reported at all, so that a reported 0 ends the search |
| TokenFields.CacheWriteCount | vibecrafted-core/vibecrafted_core/agent_stream.py:548-556 | the cache-write count is the first of its three spellings that is reported at all, and stays unreported without one |
| TokenFields.GroupsApart | vibecrafted-core/vibecrafted_core/agent_stream.py:521-561 | changing a field of one group leaves the counts of the other groups alone |
| TokenFields.EventExactly | vibecrafted-core/vibecrafted_core/agent_stream.py:527-528 | an object counts as a usage event exactly if it has a token field that is reported; without one it adds nothing |
| TokenFields.ReadsNumbers | vibecrafted-core/vibecrafted_core/agent_stream.py:521-561 | a count is read from whole numbers, truncated fractions, booleans and numeric text, and is 0 for nothing |
| TokenFields.NodeFields | vibecrafted-core/vibecrafted_core/agent_stream.py:584-597 | of a nested object the list under modelUsage or model_usage and the object under usage or stats are recorded |
| Telemetry.AddIsMonoid | vibecrafted-core/vibecrafted_core/agent_stream.py:553-556 | totals add up in any order and grouping, the unreported cache-write count included |
| TokenFields.TotalsAreSums | vibecrafted-core/vibecrafted_core/agent_stream.py:521-561 | totals are added field by field, the cache-write count being reported as soon as one of the two is |
| Occurrences.CountFindsOccurrences | scripts/payload_hygiene.py:153 | bytes.count is positive exactly when the needle occurs |
| Occurrences.PositionsAreAll | scripts/payload_hygiene.py:151-156 | the positions of a needle are all the places at which it occurs, each once |
| Occurrences.CountIsReached | scripts/payload_hygiene.py:153 | as many occurrences as bytes.count says can be found without overlap |
| Occurrences.CountIsMost | scripts/payload_hygiene.py:153 | and no more |
| Occurrences.BorderlessCount | scripts/payload_hygiene.py:153 | for a needle without self-overlap it counts every position |
| Occurrences.CountsEverythingExactly | scripts/payload_hygiene.py:153 | bytes.count counts every position of every string exactly for the needles without self-overlap |
| LiteralScan.CountInFile | scripts/payload_hygiene.py:141-157 | for any split into non-empty reads, a needle is listed exactly when it occurs in the whole file, with the hits of all windows |
| LiteralScan.HitsFindTheNeedle | scripts/payload_hygiene.py:141-157 | some window holds the needle exactly when the whole file does |
| LiteralScan.HitsCountThePositions | scripts/payload_hygiene.py:151-156 | for a needle without self-overlap the hits are the positions in the whole file plus those inside carried tails |
| LiteralScan.LongestNeedleExact | scripts/payload_hygiene.py:143-156 | the longest needle is counted exactly |
| LiteralScan.ExactlyTheLongestBorderless | scripts/payload_hygiene.py:141-157 | over all files and cuts the count is exact if and only if the needle has the maximal length and does not overlap itself |
| LiteralScan.AnyShortNeedleTwice | scripts/payload_hygiene.py:151-156 | any shorter needle is counted twice across some boundary |
| LiteralScan.OverlapMissed | scripts/payload_hygiene.py:151-156 | of two overlapping occurrences in one read one is missed |
| LiteralScan.PassesExactlyWhenClean | scripts/payload_hygiene.py:434-477 | a payload passes exactly when every file can be read and names no literal, or its digest, as it is or without its signature, is an accepted one |
| LiteralScan.Scan | scripts/payload_hygiene.py:160-206 | reports exactly the offences of the files |
| Provenance.JoinAssociates | scripts/gen_skill_provenance.py:451-471 | the merge of records is associative |
| Provenance.JoinCommutes | scripts/gen_skill_provenance.py:451-471 | the merge of records is commutative |
| Provenance.JoinContains | scripts/gen_skill_provenance.py:45-48 | one manifest is contained in another exactly when merging it in changes nothing |
| ProvenanceFile.LoadInvertsRender | scripts/gen_skill_provenance.py:392-448 | loading a rendered manifest gives back the same records |
| ProvenanceFile.BuildOnlyAdds | scripts/gen_skill_provenance.py:45-48 | a regeneration drops no entry and records everything the repository shows |
| ProvenanceFile.BuildIsIdempotent | scripts/gen_skill_provenance.py:451-471 | building from its own rendering gives the same records |
| ProvenanceFile.CheckAfterWrite | scripts/gen_skill_provenance.py:515-537 | the check passes right after a write, whatever the day |
| ProvenanceFile.CheckMeans | scripts/gen_skill_provenance.py:474-534 | the check passes exactly for a canonical document that holds everything the repository shows |
| ProvenanceFile.LoadManifest | scripts/gen_skill_provenance.py:392-422 | the tolerant loader loop computes the specified records from any document |
| ProvenanceFile.RenderManifest | scripts/gen_skill_provenance.py:432-448 | renders the records with all keys and lists sorted |
| ProvenanceFile.BuildManifest | scripts/gen_skill_provenance.py:451-471 | the loops over history and working tree compute the merge |
| ManifestContents.BuildHoldsExactly | scripts/gen_skill_provenance.py:451-471 | a digest is in the manifest exactly if it was there, is that of a blob in the history of SKILL.md or in the working tree; a blob id exactly if it was there, or has forty characters, not all zeros, and belongs to the path in the history or the working tree |
| ManifestContents.LoadedExactly | scripts/gen_skill_provenance.py:392-422 | of a document of the third schema the loader holds exactly the skills that are objects, their listed digests and their well-formed ids |
| ManifestContents.OtherSchemaIsDropped | scripts/gen_skill_provenance.py:405-410 | any other document loads as nothing |
| ManifestContents.RealOidExactly | scripts/gen_skill_provenance.py:97-101 | an id is recorded exactly if it has forty characters, not all of them zeros |
| ManifestContents.RenderedInOrder | scripts/gen_skill_provenance.py:432-448 | a document is the schema, the date and the skills, in this order, with increasing skills, paths and lists |
| Ordering.Sort | scripts/gen_skill_provenance.py:439-445 | sorted() gives the one increasing list of a set |
| BatchBlobs.ParseInvertsBatch | scripts/gen_skill_provenance.py:263-278 | any sequence of blob records with arbitrary bodies, mixed with other lines, is read back as its oid-to-body map |
| BatchBlobs.ReadBlobs | scripts/gen_skill_provenance.py:263-278 | the position loop ends on any output and computes that reading |
| BatchLines.IsHeaderExactly | scripts/gen_skill_provenance.py:269-273 | a line is taken for a header exactly if it is three words, the second blob |
| BatchLines.BrokenOff | scripts/gen_skill_provenance.py:274-277 | output that breaks off in a body: what came of it counts as that body |
| TomlVersion.ReplaceAgreesWithRead | scripts/version_bump.py:161-198 | the rewriter succeeds exactly when the reader does, changes one line, is read back as the new version, and rewriting back restores the lines |
| TomlVersion.ReplaceInText | scripts/version_bump.py:176-198 | the same on text: what is written splits into the lines written, and rewriting back restores the text |
| TomlVersion.RewrittenLine | scripts/version_bump.py:190-193 | in a version line only the version changes, and it is read back |
| TomlVersion.HeaderHasNoVersion | scripts/version_bump.py:168-172 | a table header is never taken for a version line |
| TomlVersion.ReadTableVersion | scripts/version_bump.py:161-173 | the reading loop finds the first version line of the table |
| TomlLines.VersionSpanExactly | scripts/version_bump.py:17-19 | the version of a line is what its pattern says: spaces, version, spaces, an equals sign, spaces, a quote, the version without quotes, a quote |
| TomlLines.TableVersionExactly | scripts/version_bump.py:161-173 | the reader finds exactly what the first version line says that stands below the header of the table and below no later one |
| TomlLines.StripExactly | scripts/version_bump.py:168 | stripping leaves what stands between the white space at the ends |
| TomlLines.LineEndsRead | scripts/version_bump.py:306-309 | a file is read with LF, CR LF and CR as line feeds |
| TomlVersion.RewriteTableVersion | scripts/version_bump.py:176-198 | the rewriting loop replaces exactly that line's version |
| LockVersion.LockAgrees | scripts/version_bump.py:201-256 | only owned version lines change, the result validates at the new version, and rewriting back restores the file exactly when its owned lines were canonical |
| LockVersion.LockText | scripts/version_bump.py:201-256 | what is written splits into the lines written exactly when the version has no line break and every owned line but the last ends in LF, and those lines validate |
| LockVersion.ReplaceLockPackageVersions | scripts/version_bump.py:201-256 | the block scan and the rewriting loop compute the specified result or its error |
| LockBlocks.LockExactly | scripts/version_bump.py:201-256 | a lock file agrees with a version exactly if each package has one block that bears its name and whose first version line says so, and exactly these lines are rewritten |
| LockBlocks.PackagesExactly | scripts/version_bump.py:217-245 | the block scan succeeds exactly if every owned block states a version and no two bear the same name, and finds the first version line of each |
| Semver.BumpsIncrease | scripts/version_bump.py:142-158 | patch, minor and major give a strictly later version under item 11 of Semantic Versioning 2.0.0 |
| Semver.BumpsAreNext | scripts/version_bump.py:142-158 | after patch no version lies between; after minor the result is the least later version with patch 0, after major the least later one with minor and patch 0 |
| Semver.ResolvesExactly | scripts/version_bump.py:142-158 | a request is resolved exactly if the current version parses and the request is patch, minor, major or a version, which is then taken as it is |
| Semver.ParsesExactly | scripts/version_bump.py:130-139 | a text parses as a version exactly if it is, trimmed, the printed form of it |
| Semver.ParseInvertsPrint | scripts/version_bump.py:130-158 | a printed version parses back |
| VersionBump.UntrimmedRefused | scripts/version_bump.py:142-158 | the request 1.2.3 with a space behind it is written as it is, and then --check refuses |
| VersionBump.UpdateThenCheck | scripts/version_bump.py:75-127 | after a successful update --check accepts the written version exactly if the request was trimmed; after a one-line request it accepts anything exactly if that was trimmed or VERSION stands alone |
| VersionDeclarations.CheckExactly | scripts/version_bump.py:75-127 | --check accepts v exactly if VERSION says v, a version, and either no Python file or Cargo manifest exists, or all the Python files do and declare it in [project] or as their text, the Cargo manifests all or none, in [package], and each Cargo.lock in one block of each product package |
| VersionDeclarations.UpdateWrites | scripts/version_bump.py:292-394 | a successful update writes the next version and a line feed to VERSION and the packaged VERSION files, and leaves alone every file that declares nothing |
| VersionBump.UpdateSucceeds | scripts/version_bump.py:292-394 | an update succeeds exactly when the layout is complete and in agreement and the request is resolved, and rewrites each declaring file by its own rewriter |
| VersionBump.UpdatedAccepts | scripts/version_bump.py:354-390 | a file that declared the current version can be rewritten and, read again, declares the next, a packaged VERSION only if trimmed |
| VersionBump.ThereAndBack | scripts/version_bump.py:176-198 | changing the version of a pyproject.toml or Cargo.toml and changing it back restores the file exactly if it had no CR |
| VersionBump.CrLfDeclaration | scripts/version_bump.py:393 | a declaration with CR LF line ends is such a file |
| VersionBump.LayoutsExactly | scripts/version_bump.py:259-289 | the complete layouts are VERSION alone, the Python files, and these with the Cargo manifests |
| VersionBump.WithoutPython | scripts/version_bump.py:262-289 | without Python files VERSION stands alone exactly if there is no Cargo manifest; else every update and check is refused |
| VersionBump.CargoAlone | scripts/version_bump.py:262-289 | one Cargo manifest beside VERSION is such a layout |
| VersionBump.Checkout.UpdateVersionDeclarations | scripts/version_bump.py:292-394 | a refusal writes nothing; a success writes the declaring files and no others |
| CorpusSync.LoadCorpus | vibecrafted-core/vibecrafted_core/aicx_sync.py:518-543 | loads exactly when every candidate is UTF-8, and keeps the first highest-ranked chunk of each id, by extension group and then by path |
| CorpusSync.TiesByPathExactly | vibecrafted-core/vibecrafted_core/aicx_sync.py:518-543 | the kept chunk has the smallest path among the highest-ranked exactly when no later group holds such a chunk with a smaller path |
| CorpusSync.GroupBeatsPath | vibecrafted-core/vibecrafted_core/aicx_sync.py:533-542 | ties go to the earlier extension group, not the earlier path |
| CorpusSync.DiscoverChunks | vibecrafted-core/vibecrafted_core/aicx_sync.py:545-600 | puts every id in the one list its two sides call for, each list in increasing order |
| CorpusSync.DiffMirrors | vibecrafted-core/vibecrafted_core/aicx_sync.py:574-585 | swapping the sides mirrors the plan |
| CorpusSync.DiffPlaces | vibecrafted-core/vibecrafted_core/aicx_sync.py:574-585 | an id is added one way, added the other way, in conflict, or in no list when both sides agree |
| CorpusLaws.PlanExactly | vibecrafted-core/vibecrafted_core/aicx_sync.py:572-585 | what goes to the other side is the chunk of the side that has it; a conflict is the local chunk and the remote one, in this order, where their hashes differ |
| CorpusLaws.LoadedFits | vibecrafted-core/vibecrafted_core/aicx_sync.py:518-543 | a loaded corpus has exactly the ids of the well-formed candidates, each with a chunk of its own id, and reports exactly the malformed files |
| CorpusLaws.RanksFollowTiers | vibecrafted-core/vibecrafted_core/aicx_sync.py:106-115 | the ranks follow the list of the eight authorities |
| CorpusLaws.CorruptedExactly | vibecrafted-core/vibecrafted_core/aicx_sync.py:535-539 | exactly the malformed files are reported |
| CorpusLaws.LessExactly | vibecrafted-core/vibecrafted_core/aicx_sync.py:534 | ids, paths and timestamps are ordered by their first difference, a proper prefix first |
| CorpusDecisions.RankWinsFromEitherSide | vibecrafted-core/vibecrafted_core/aicx_sync.py:639-644 | unequal ranks pick the same, higher chunk from either side and under any log |
| CorpusDecisions.LoggedSideFlips | vibecrafted-core/vibecrafted_core/aicx_sync.py:646-654 | between equal ranks a logged side picks the other chunk once the sides are swapped |
| CorpusDecisions.LoadsExactlyWhenReadable | vibecrafted-core/vibecrafted_core/aicx_sync.py:446-473 | the log loads exactly when no line of it is a JSON value other than an object |
| CorpusDecisions.LastNewestWins | vibecrafted-core/vibecrafted_core/aicx_sync.py:446-473 | the log yields the last of the newest records of each id |
| CorpusDecisions.RecordedDecisionCounts | vibecrafted-core/vibecrafted_core/aicx_sync.py:674-701 | a recorded decision takes effect exactly when no earlier record of its id is newer |
| CorpusDecisions.TieStaysDecided | vibecrafted-core/vibecrafted_core/aicx_sync.py:625-654 | a tie so decided resolves to the recorded side in every later run, until a record at least as new |
| CorpusDecisions.ConflictsAccountedFor | vibecrafted-core/vibecrafted_core/aicx_sync.py:756-772 | every conflict is resolved or tied, and ties remain exactly for equal ranks without a usable decision |
| CorpusLaws.ConflictsExactly | vibecrafted-core/vibecrafted_core/aicx_sync.py:756-772 | a conflict is applied for the local side exactly if it has the higher rank, or an equal one and the decision, likewise for the remote side, and is a tie exactly if neither wins |
| CorpusDecisions.AicxSyncEngine.ResolveConflict | vibecrafted-core/vibecrafted_core/aicx_sync.py:625-666 | resolves by rank, then by the log as it stands, cached or not |
| CorpusDecisions.AicxSyncEngine.RecordDecision | vibecrafted-core/vibecrafted_core/aicx_sync.py:674-701 | appends a valid decision and drops the cache; refuses any other side |
| CorpusDecisions.AicxSyncEngine.ApplyConflicts | vibecrafted-core/vibecrafted_core/aicx_sync.py:756-772 | the loop splits the conflicts into resolved and tied ones in order |
| SlackInstall.NeverPartial | scripts/slack_provider.py:253-300 | with crashes and failures anywhere and concurrent installers, current is absent or names a generation with all required files, the launcher, the portal and a manifest that fits |
| SlackInstall.GenerationsAreImmutable | scripts/slack_provider.py:292-295 | a published generation keeps its content |
| SlackInstall.CurrentChangesBySwap | scripts/slack_provider.py:180-189 | current changes only at a swap, and then to the generation of the installer that swaps |
| SlackInstall.CurrentAfterSwap | scripts/slack_provider.py:180-189 | after a swap current names that generation until a swap to another one |
| SlackInstall.InstalledIsCurrent | scripts/slack_provider.py:253-308 | an installer past its swap has made it; unless another generation was swapped in since, current names the one it installed, whatever current was before |
| SlackInstall.FailureLeavesNothing | scripts/slack_provider.py:180-189 | a failure, unlike a crash, leaves no temporary link and, after the handler, no staging behind, and changes neither current nor a generation |
| SlackInstall.DoctorAfterInstall | scripts/slack_provider.py:311-348 | with a pnpm that makes node_modules, doctor accepts after an uninterrupted install, and goes on accepting |
| SlackInstall.DoctorExactly | scripts/slack_provider.py:311-348 | after an uninterrupted install doctor accepts exactly when the generation current names has node_modules |
| SlackInstall.DoctorDetects | scripts/slack_provider.py:311-348 | doctor accepts exactly a public link and a current generation with the launcher, dependencies and a manifest that fits its files, so it notices altered files unless their digests collide |
| SlackInstall.BareInstall | scripts/slack_provider.py:253-300 | an install whose pnpm makes none finishes, and doctor refuses |
| SlackInstall.RunKeepsInvariant | scripts/slack_provider.py:228-308 | every state of every interleaving of installers satisfies the publication invariant |
| TreeDigest.StreamInjective | scripts/slack_provider.py:109-129 | without NUL bytes in the files equal digest streams mean equal files |
| TreeDigest.SharedExactly | scripts/slack_provider.py:109-129 | a list of files shares its stream with another exactly when it has two files or more, or one whose body holds two NUL bytes or more |
| TreeDigest.SamePathsDrift | scripts/slack_provider.py:125-128 | two lists with the same paths and different bodies share a stream |
| TreeDigest.StreamAmbiguous | scripts/slack_provider.py:125-128 | with a NUL byte two different trees share a stream |
| TreeDigest.Feed | scripts/slack_provider.py:109-129 | the nested loops feed exactly the framed runtime files |
| TreeDigest.FedExactly | scripts/slack_provider.py:113-124 | the files fed are the regular ones without node_modules in their path, the rendered plist left out and, for the source, what lies below portal/dist |
| TreeDigest.SpelledWithSlashes | scripts/slack_provider.py:125 | a path is fed with a slash between its parts |
| TreeDigest.DistIgnored | scripts/slack_provider.py:121-122 | built portal output does not change the source digest |
| Rtf.ReadInvertsRender | scripts/windows_license_rtf.py:55-67 | reading a rendered licence gives back its newline-normalised text, less one trailing newline, for every sequence of Unicode scalar values |
| Rtf.RenderIdentifiesText | scripts/windows_license_rtf.py:55-67 | two licences render alike exactly when their normalised texts agree |
| Rtf.RenderIsBalancedAscii | scripts/windows_license_rtf.py:62-67 | the document is ASCII and its unescaped braces balance |
| Rtf.SignedRange | scripts/windows_license_rtf.py:49-51 | every escaped number lies in [-32768, 32767] and stands for its code unit |
| Rtf.NormalTextKept | scripts/windows_license_rtf.py:57-58 | a text with LF lines and no final line feed is not changed by normalisation |
| LicenseLines.LinesReadBack | scripts/windows_license_rtf.py:55-67 | lines ended by LF, CR or CR LF, with what stands behind the last end, read back as these lines ended by line feeds, the rest being one more line unless it is empty |
| LicenseLines.EveryTextIsLines | scripts/windows_license_rtf.py:57-58 | every text is such lines and a rest |
| LicenseLines.DocumentFrame | scripts/windows_license_rtf.py:28-32 | every document begins with the header and ends with a closing brace and a line feed |
| Rtf.EscapeLine | scripts/windows_license_rtf.py:35-52 | the escaping loop, surrogate pairs included, writes the escape of the line's UTF-16 code units |
| Rtf.RenderLicense | scripts/windows_license_rtf.py:55-67 | the document is the header, the escaped lines and the closing brace |
| Utf16.DecodeInvertsEncode | scripts/windows_license_rtf.py:47-49 | decoding inverts UTF-16 encoding, as in sections 2.1 and 2.2 of RFC 2781 |

## Left out

- TreeRecord.RecordIdentifiesEntries: SHA-256 is not computed; collisions are excluded only among the strings that are hashed.
- FileTree.WalkEntries: the order in which os.walk lists paths is not stated, because the record does not depend on it.
- FileTree.RecordFromTree: inode stability, hard links and file descriptors are not modelled; a node is read as one value.
- PathPolicy.PartsOfPosix: case folding is ASCII, which agrees with the source on all the spellings its rules name; Windows path flavours are not modelled.
- GitPayload.GitTreeEntries: ls-tree rows arrive already split into fields.
- Archive.VerifyArchive: gzip and tar header encoding are not modelled; the carrier's canonical JSON text is an abstract function of the provenance.
- RevisionArchive.CreateArchive: the validation of the staged payload before its publication (required files, resolved links) is not modelled; reading a carrier back is a function that inverts its rendering.
- Publish.Parent.PublishStaged: the names of temporary directories and removal in several steps are reduced to one result of the removal.
- SymlinkTarget.LexicalImpliesResolved: a resolution round a circle is only said not to end; what pathlib raises then is not modelled.
- AcpTheorems.HardStopsNeedGrants: does not place the reply after the request; AcpTheorems.GrantsFollowRequests does.
- AcpTheorems.CancelledRunsAreStopped: says that the stop is requested, not that the control plane obeys; liveness of threads is not modelled.
- AcpTheorems.OneResponsePerRequest: a send that raises is taken to have delivered nothing, and a prompt thread always starts.
- AcpNames.SecondWorkerExactly: whether the bridge finds artifacts to restore a session from is a parameter.
- AcpTheorems.OneLaunchAfterCancel: counts direct runs; the stages of a lifecycle run launch inside the bridge, where the cancel event is checked.
- AcpObjects.ClientRequests.Take: timeouts and wake-ups are the freedom to end the wait at any moment; message fields other than the grant are left out.
- Transcript.Stream.PumpOnce: the transcript only grows; a truncated file is outside the contract.
- Transcript.ChunkingIsInvisible: the parser behind the lines is not modelled here; only what it is fed.
- AgentStream.FilterStream: the provider formatters are reduced to sequences of the five actions; clipping, colours and the regular expression for partial input are parameters or left out.
- ToolBurst.RenderToolBurst: shell splitting of a command is the parameter headOf, and the summary is a structure, not text.
- Telemetry.Meter.RecordNested: numbers are finite, so the overflow of int() on infinities is not modelled; model names and cost are left out.
- LiteralScan.Scan: the sorting of the report and the stripping of code signatures are not modelled; the digests of a file are given.
- ProvenanceFile.LoadInvertsRender: JSON text is represented by its structure; an unparsable file is None.
- ProvenanceFile.BuildManifest: the records in the dictionary are values there; SkillRecordObject shows the mutable record. Collecting from Git and the working tree is outside.
- BatchBlobs.ReadBlobs: header fields are split at ASCII whitespace, and a size other than plain digits is an error, where int() also takes signs and underscores.
- TomlVersion.ReplaceInText: text is UTF-8 bytes with LF, CR or CRLF line ends; the other line separators that str.splitlines knows are not, and whitespace and digits are ASCII.
- StagedRevision.AssertStagedMatches: the object id of a blob is any function of its bytes, and the object format is fixed.
- VersionBump.UpdateThenCheck: plugin.json and the regular-expression projections of the release texts are not modelled, nor are files that are no UTF-8, a write that fails half way through, and line ends other than LF on writing.
- Semver.BumpsIncrease: says nothing about explicit requests, which may go back.
- CorpusSync.LoadCorpus: parsing a candidate file into a chunk is given; authority labels are already normalised; a path counts as its components joined by NUL, whose order is that of paths.
- CorpusDecisions.AicxSyncEngine.ResolveConflict: a log appended to by another process behind the cache is not modelled.
- SlackInstall.DoctorAfterInstall: pnpm and the portal build are assumed to add files only; migration of the legacy .env and permission bits are left out.
- TreeDigest.SharedExactly: the other list is any list with paths free of NUL; that a checkout can hold it is not claimed.
- Archive.WriteArchive: sockets, for which tarfile has no header, count among the nodes it refuses.
- SlackInstall.NeverPartial: a rename onto a generation that a concurrent installer has just published raises, so that installer fails although a complete generation is there.
- Rtf.ReadInvertsRender: the reader knows the control words that the renderer writes, not RTF at large.
- The launchers, the installer interface, housekeeping, smoke dispatch, the policy pattern lists, lifecycle runs in the bridge and the Windows file helpers are not modelled.
