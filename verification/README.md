# Diffuse: a verified model

Diffuse reviews pull requests durably: a relay delivers webhooks, a server keeps the
reviews and their findings, and isolated hosts run the agents. This project models the
protocols and transformations where that durability is decided, and proves what they keep.
`dafny verify dfyconfig.toml` checks all of it.

| modules | what they model |
| --- | --- |
| `Text`, `Paths`, `Archive`, `Workspace`, `SourceTree`, `RoundTrip` | source artifacts: a tree is built into an ordered archive, validated and written to an empty workspace |
| `Rows`, `Lineage`, `LineageSteps`, `LineageIntake`, `Classifier`, `Continuity`, `ReviewStore`, `ReviewLifecycle`, `ReviewRuns`, `ReviewWitnesses` | finding lineage: provisional events across many review runs, applied or discarded, and the status check computed before publication |
| `RelayDelivery`, `RelayCredentials`, `RelayLifecycle`, `SealedSecret`, `Base64Url` | the relay: leased delivery, one-time credential hand-over, tokens and key rotation |
| `HostRunner` | the host: request threads and one worker slot, interleaved |
| `CheckRuns` | a check run completed by any number of workers |
| `Feedback`, `Learning` | reactions as an append-only log, and learned rules under moderation and audit |
| `Dispatch`, `Prompt`, `Annotations`, `SessionBudget` | signed envelopes, delimiter neutralisation, capped annotations, session budgets |

Code that changes state step by step is a class or a method with a loop, proved equal to a
function of the old state; the functions make up the steps of a state machine, and the
main lemmas are about all of its runs. Each store function is one atomic step over maps.
Clocks, random draws, the tar writer, digests, ciphers, signatures and the similarity of
two findings are parameters, constrained only where a proof says so: the hash of tokens and
the digests of contents and manifests are injective, decryption inverts encryption under
the same key and purpose and fails otherwise, and fresh tokens do not repeat.

## Where the code keeps less than one might expect

Each of these has a lemma with an input on which the tempting claim fails, and a theorem
saying exactly when it holds.

- The manifest's entry count may exceed `max_entries`, because implied directories are not
  counted: `Archive.ManifestCanExceedMaxEntries`, `Archive.ManifestCountsImpliedDirectories`.
- A superseded review run can still become published, since publishing does not look at the
  run's status: `ReviewWitnesses.SupersededCanBePublished`,
  `ReviewWitnesses.SupersededIsPublishedExactly`. `published` itself never changes back.
- A host review that is still `running` can already hold a result:
  `HostRunner.RunningCanHoldResult`, `HostRunner.RunningHoldsResultWhileFinishing`.
- A secret whose key id is shared with an earlier key cannot be opened:
  `SealedSecret.SharedKeyIdHides`, `SealedSecret.UnsealInvertsSeal`.
- `completion_attempts` counts past eight; only the requests sent are bounded:
  `CheckRuns.AttemptsPassTheBound`, `CheckRuns.AttemptsAreCounted`.
- A report that names one fingerprint twice, or takes a published finding for a new one, makes
  persisting fail, and for a generating run and normalised paths nothing else does:
  `ReviewWitnesses.RepeatedFingerprintIsRefused`, `ReviewWitnesses.CollidingFingerprintIsRefused`,
  `LineageIntake.ReportsAreRefusedExactly`.
- The finding shown for a predicted open lineage can differ from the committed one:
  `ReviewWitnesses.PredictionCanDiffer`, `ReviewRuns.PublicationAgrees`.
- A fetched reaction that was withdrawn earlier, or that another thread logged, does not come
  back: `Feedback.WithdrawnStaysAway`, `Feedback.ProjectionIsFetchedSet`.
- A red check can show no blocking annotation: `Annotations.LeftSideLeavesRedUnexplained`,
  `Annotations.ShadowLeavesRedUnexplained`, `Annotations.RedIsUnexplainedExactly`.
- An edit of a learned rule can leave its content as it was and still add a version, because it
  is compared before validation strips it: `Learning.EditCanChangeNothing`,
  `Learning.EditsChangeExactly`.

## Model

| member | source | states |
|---|---|---|
| `Paths.MemberNamesDenoteCanonicalPaths` | packages/protocol/src/diffuse_protocol/artifact.py:507-531 | a member name is accepted as `p` if and only if `p` is canonical and the name is `p` or `p` with one trailing slash |
| `Paths.JoinedPrefixesAreAncestors` | packages/protocol/src/diffuse_protocol/artifact.py:549-562 | the joined proper prefixes of a path that the collision check walks are exactly its ancestors |
| `Paths.LineageBound` | packages/protocol/src/diffuse_protocol/artifact.py:516-526 | a canonical path has, with its ancestors, at most half as many nodes as it has bytes allowed, rounded up |
| `Paths.ParentIsLongestAncestor` | packages/protocol/src/diffuse_protocol/artifact.py:603-606 | the parent a mkdir needs is the longest of a path's ancestors |
| `Archive.HashMember` | packages/protocol/src/diffuse_protocol/artifact.py:565-583 | the chunked read gives the digest of the whole content, or says in which direction the declared size is wrong |
| `Archive.AllDirectories` | packages/protocol/src/diffuse_protocol/artifact.py:586-591 | the walk from every path to its parents collects the declared directories and exactly all ancestors |
| `Archive.RunningChecksAreExact` | packages/protocol/src/diffuse_protocol/artifact.py:451-480 | one more member keeps a prefix acceptable if and only if the loop's own count, size, path and collision checks pass |
| `Archive.ValidateArchive` | packages/protocol/src/diffuse_protocol/artifact.py:440-504 | the loop accepts if and only if the members meet the order-free description of a bounded tree, and then returns its files, directories and manifest |
| `Archive.ManifestIsConsistent` | packages/protocol/src/diffuse_protocol/artifact.py:118-147 | the manifest the validator builds always satisfies the checks of the manifest's own constructor |
| `Archive.ManifestDescribesMembers` | packages/protocol/src/diffuse_protocol/artifact.py:480-499 | the manifest of an accepted archive has exactly one entry for each file, with its path, read-only mode, size and content digest, one for each directory, with mode 0o555 and no digest, and no other entry |
| `Archive.ManifestIdentifiesTree` | packages/protocol/src/diffuse_protocol/artifact.py:480-499 | with an injective digest, two accepted archives have the same manifest if and only if they have the same directories and files with the same paths, contents and executability |
| `Archive.AcceptedArchivesAreTrees` | packages/protocol/src/diffuse_protocol/artifact.py:447-480 | in an accepted archive, in any order, directories and files are disjoint, every ancestor is a directory, and no file is above anything |
| `Archive.MemberOrderIsIrrelevant` | packages/protocol/src/diffuse_protocol/artifact.py:440-504 | permuting the members changes neither acceptance nor files, directories or manifest |
| `Archive.ExtractionIsBounded` | packages/protocol/src/diffuse_protocol/artifact.py:451-464 | an accepted archive creates at most `maxEntries * ((maxPathBytes + 1) / 2)` nodes, implied directories included, and its files total at most `maxWorkspaceBytes` |
| `Archive.UnsafeMembersAreRefused` | packages/protocol/src/diffuse_protocol/artifact.py:534-546 | an archive is not accepted if any member is neither a file nor a directory, has a write, set-id or sticky bit, or is a file of a wrong or excessive size or with a trailing slash |
| `Archive.ExecutableMeans` | packages/protocol/src/diffuse_protocol/artifact.py:471-471 | a file counts as executable if and only if owner, group or others may execute it |
| `Archive.ManifestCountsImpliedDirectories` | packages/protocol/src/diffuse_protocol/artifact.py:480-499 | the manifest has one entry per member and per implied directory, so it stays within `max_entries` if and only if the members leave room for the directories they imply |
| `Archive.ManifestCanExceedMaxEntries` | packages/protocol/src/diffuse_protocol/artifact.py:451-453 | one file in a directory of its own is accepted where one entry is allowed, and its manifest has two |
| `Workspace.CopyMember` | packages/protocol/src/diffuse_protocol/artifact.py:617-647 | succeeds if and only if the path can be created and size and digest match; then the file holds the whole content under its read-only mode |
| `Workspace.MakeDirectories` | packages/protocol/src/diffuse_protocol/artifact.py:603-606 | sorted by depth, every directory finds its parent present and its own path absent, so creation fails only in a root that cannot be written, and then before anything exists |
| `Workspace.WriteMember` | packages/protocol/src/diffuse_protocol/artifact.py:607-613 | the file of one validated member is created exclusively and nothing else changes |
| `Workspace.WriteFiles` | packages/protocol/src/diffuse_protocol/artifact.py:607-613 | every exclusive creation succeeds and the files of all members are there with their content and mode |
| `Workspace.MakeTreeReadOnly` | packages/protocol/src/diffuse_protocol/artifact.py:650-656 | exactly the directories and the root end read-only; the files are left as they are |
| `Workspace.WriteValidatedArchive` | packages/protocol/src/diffuse_protocol/artifact.py:594-614 | directories, files and permissions together make the workspace the archive describes |
| `Workspace.Materialize` | packages/protocol/src/diffuse_protocol/artifact.py:385-414 | an artifact that cannot be delivered, or a workspace that is not empty, is refused with nothing written, and so is an artifact with members when the root cannot be written; any other ends as exactly the described workspace |
| `Workspace.DigestFixesWorkspace` | packages/protocol/src/diffuse_protocol/artifact.py:395-412 | two archives that pass under the same manifest digest extract to the same workspace, if neither digest is shared by two values |
| `SourceTree.Builder.AddEntry` | packages/protocol/src/diffuse_protocol/artifact.py:213-217 | counts every entry, and accepts it while the count and the path are within bounds |
| `SourceTree.Builder.AddFile` | packages/protocol/src/diffuse_protocol/artifact.py:219-224 | accepts a file size if and only if it and the running total are within bounds |
| `SourceTree.Builder.AddRegularFile` | packages/protocol/src/diffuse_protocol/artifact.py:297-327 | appends the file's member if and only if the members are still admitted |
| `SourceTree.Builder.AddChild` | packages/protocol/src/diffuse_protocol/artifact.py:251-285 | appends a child and everything below it if and only if that subtree is clean and admitted |
| `SourceTree.Builder.AddSourceDirectory` | packages/protocol/src/diffuse_protocol/artifact.py:231-285 | appends the members of the sorted children, recursively, without a top-level `.git`, if and only if they are clean and admitted |
| `RoundTrip.MembersAreLayout` | packages/protocol/src/diffuse_protocol/artifact.py:231-327 | the members of a node name exactly the paths, modes and contents of its layout |
| `RoundTrip.BuiltArchivesAreAcceptable` | packages/protocol/src/diffuse_protocol/artifact.py:165-204 | whatever a build writes is accepted by the validator, so the closing validation cannot fail |
| `RoundTrip.BuildThenMaterialize` | packages/protocol/src/diffuse_protocol/artifact.py:165-204 | for every tree on which the build succeeds, the artifact can be delivered and the workspace is that tree without a top-level `.git`, read-only, executable where any execute bit was set |
| `RoundTrip.OnlyTheSourceIsDelivered` | packages/protocol/src/diffuse_protocol/artifact.py:385-414 | under the manifest digest of a build, whatever archive is delivered, the workspace is the source tree that was built |
| `RoundTrip.ScanOrderIsIrrelevant` | packages/protocol/src/diffuse_protocol/artifact.py:237-242 | two trees that differ only in the order of their directory entries, at every depth, build the same archive |
| `RoundTrip.BuildSourceArtifact` | packages/protocol/src/diffuse_protocol/artifact.py:165-204 | builds if and only if the tree is clean and within bounds, and signs the manifest of what it built |
| `RoundTrip.Deliver` | packages/protocol/src/diffuse_protocol/artifact.py:385-414 | a build followed by a delivery into a fresh workspace succeeds if and only if the build does, and leaves the source tree |
| `Lineage.AcceptedWords` | packages/server/src/diffuse/database/finding.py:272-310 | the transitions the status table accepts spell exactly `new (persistent or addressed reopened)* addressed?`, and the status is where the word ends |
| `Lineage.ContinuationsAreAccepted` | packages/server/src/diffuse/database/finding.py:272-310 | from an active lineage the words that may follow are exactly the continuations of that pattern |
| `Lineage.PendingHasNoApplied` | packages/server/src/diffuse/database/finding.py:335-352 | a lineage is pending if and only if no event of it was applied, so deleting pending lineages takes no applied event along |
| `LineageSteps.ClearedKeeps` | packages/server/src/diffuse/database/finding.py:323-352 | discarding an unpublished projection loses no applied event, no finding of one, no lineage past pending and no published run |
| `LineageSteps.ClearedIsFolded` | packages/server/src/diffuse/database/finding.py:323-352 | after a discard the tables still meet every constraint and every status is still the fold of its applied events |
| `LineageSteps.BegunKeeps` | packages/server/src/diffuse/database/review_store.py:184-446 | beginning or resuming a review run keeps the invariant and everything applied |
| `LineageSteps.GivingUpKeeps` | packages/server/src/diffuse/database/review_store.py:743-823 | giving a run up, superseded or failed for good, keeps the invariant and everything applied |
| `LineageSteps.ApplyAllByLineage` | packages/server/src/diffuse/database/finding.py:290-320 | applying a run's events moves each lineage by its own event and leaves every other lineage alone |
| `LineageSteps.ApplyAllFolds` | packages/server/src/diffuse/database/finding.py:272-320 | applying events keeps statuses equal to the fold of the applied events |
| `LineageSteps.ActivatedIsConsistent` | packages/server/src/diffuse/database/finding.py:231-320 | activation keeps the tables consistent and appends exactly the applicable events in order |
| `LineageSteps.ActivationSettles` | packages/server/src/diffuse/database/review_store.py:945-986 | events and the published status of their run are committed together |
| `LineageSteps.PublicationBegunKeeps` | packages/server/src/diffuse/database/review_store.py:826-942 | beginning a publication keeps the invariant and everything applied |
| `LineageSteps.PublicationFailedKeeps` | packages/server/src/diffuse/database/review_store.py:989-1019 | a failed publication keeps the invariant and everything applied, and never takes a published run back |
| `LineageSteps.PublicationPublishedKeeps` | packages/server/src/diffuse/database/review_store.py:945-986 | publishing keeps the invariant and everything applied, whatever the status of the run was |
| `LineageIntake.PersistedKeeps` | packages/server/src/diffuse/database/review_store.py:449-592 | persisting a report keeps the invariant and everything applied |
| `LineageIntake.ChangesAccepted` | packages/server/src/diffuse/database/finding.py:132-228 | the inserts of a report go through if and only if no change repeats a fingerprint or collides with a published lineage; then every finding and event is held under its lineage |
| `LineageIntake.ReportsAreRefusedExactly` | packages/server/src/diffuse/database/finding.py:114-228 | persisting fails if and only if the report repeats a fingerprint or an unmatched finding carries the fingerprint of a lineage already published |
| `ReviewWitnesses.RepeatedFingerprintIsRefused` | packages/server/src/diffuse/database/finding.py:130-215 | a run in which a report names a fingerprint twice: it is refused and the tables stay |
| `ReviewWitnesses.CollidingFingerprintIsRefused` | packages/server/src/diffuse/database/finding.py:143-168 | a run in which a report takes a published finding for a new one: it is refused |
| `Classifier.RankOne` | packages/server/src/diffuse/review/lineage.py:130-146 | the candidates of one finding are inserted in rank, none lost and none added |
| `Classifier.Rank` | packages/server/src/diffuse/review/lineage.py:130-146 | all pairs at or above the threshold, ordered by similarity and then by the tie-breaking keys |
| `Classifier.Match` | packages/server/src/diffuse/review/lineage.py:148-154 | the loop takes a candidate if and only if no earlier one took its finding or its lineage |
| `Classifier.GreedyMatchingIsUnique` | packages/server/src/diffuse/review/lineage.py:140-154 | the ranking leaves only one such matching |
| `Classifier.Classify` | packages/server/src/diffuse/review/lineage.py:107-190 | gives the transitions of that ranking and matching, and refuses if and only if an alias is not a normalised path |
| `Classifier.TransitionsMeetTheContract` | packages/server/src/diffuse/review/lineage.py:107-190 | for every similarity, each run has at most one transition per lineage, `new` has none, `persistent` and `addressed` come from active and `reopened` from addressed lineages |
| `Classifier.TransitionsSayWhatHappened` | packages/server/src/diffuse/review/lineage.py:156-190 | one transition per current finding, in order: `new` if unmatched, else `reopened` or `persistent` by its lineage's status; then `addressed` for exactly the active lineages that are unmatched and whose path was touched under its old or new name |
| `Continuity.ActiveHasFinding` | packages/server/src/diffuse/database/finding.py:429-443 | every active lineage has a published finding, so the join that loads open findings drops none |
| `Continuity.ActiveIsOfRequest` | packages/server/src/diffuse/database/finding.py:429-443 | shown as open are exactly the active lineages of the pull request, each with the published finding of it that no other is newer than |
| `Continuity.PredictionAgreesWithPublication` | packages/server/src/diffuse/database/finding.py:378-508 | for every lineage: it is predicted open if and only if it is active after publication or was skipped as unanchored, and the finding predicted is the committed one if and only if no unpublished finding of the lineage is newer |
| `Continuity.PredictionIsWhatPublicationCommits` | packages/server/src/diffuse/database/finding.py:378-508 | when the run's findings are the newest of their lineages, the prediction equals the committed open findings plus the skipped new ones, finding by finding |
| `Continuity.ConclusionFollowsPublication` | packages/server/src/diffuse/github/check.py:193-210 | the check computed before publication is skipped if and only if publication is off; otherwise it fails if publication leaves a blocking finding open, active or skipped, and succeeds if it leaves none |
| `ReviewRuns.QuietKeepsView` | packages/server/src/diffuse/database/review_store.py:184-1019 | a transaction that gives up or reports on another run away from the lineages this one reports on, publishes for another pull request, or only keeps the books, changes nothing a prediction reads |
| `ReviewRuns.PredictionStands` | packages/server/src/diffuse/database/finding.py:378-508 | in every run, while all transactions are of that kind, the prediction stays the same |
| `ReviewRuns.PublicationAgrees` | packages/server/src/diffuse/database/finding.py:231-508 | against the tables a publication leaves, on every lineage: predicted open if and only if now active or left unanchored, and with the committed finding if and only if no unpublished one was newer |
| `ReviewRuns.PublicationCommitsPrediction` | packages/server/src/diffuse/database/finding.py:231-508 | a publication leaves open exactly what was predicted when the run's findings are the newest of their lineages |
| `ReviewRuns.PredictionReachesPublication` | packages/server/src/diffuse/worker.py:1997-2057 | the same in every run, however many transactions of that kind fall between computing the prediction and publishing |
| `ReviewRuns.CheckFollowsPublication` | packages/server/src/diffuse/worker.py:1997-2081 | the conclusion a worker computes from its prediction is skipped if and only if publication is off, a failure if and only if it is on and a blocking finding is open in the tables the later publication leaves, and a success if and only if it is on and none is |
| `ReviewWitnesses.PredictionCanDiffer` | packages/server/src/diffuse/database/finding.py:378-508 | a reachable state in which a newer unpublished finding of another run makes the predicted finding differ from the committed one |
| `ReviewStore.EveryRunKeepsTheInvariant` | packages/server/src/diffuse/database/review_store.py:184-1019 | in every run of the eight transactions, in any order and by any workers, the tables stay consistent and every applied event belongs to a published review run |
| `ReviewStore.NothingAppliedIsLost` | packages/server/src/diffuse/database/finding.py:323-352 | between any two moments of a run no applied event, finding of one, lineage past pending or published review run disappears or changes back |
| `ReviewStore.StatusesFollowTheirHistory` | packages/server/src/diffuse/database/finding.py:132-320 | in every reachable state a lineage's applied events spell the pattern and its status is where they end |
| `ReviewStore.StepKeeps` | packages/server/src/diffuse/database/review_store.py:184-1019 | every single transaction keeps the invariant and everything applied |
| `ReviewLifecycle.RunsMoveExactly` | packages/server/src/diffuse/database/review_store.py:184-1019 | each transaction makes of each run's row exactly what the table says: who moves it, from which status, to which, and which columns stay |
| `ReviewLifecycle.RunsAreBegun` | packages/server/src/diffuse/database/review_store.py:184-300 | only beginning makes a run, for a job and a review that have none |
| `ReviewLifecycle.RunsMoveInEveryExecution` | packages/server/src/diffuse/database/review_store.py:184-1019 | in every run of the store, jobs, reviews and publications per provider stay unique, and every transaction moves the runs as that table says |
| `ReviewLifecycle.PublicationsBeginExactly` | packages/server/src/diffuse/database/review_store.py:826-943 | a publication begins if and only if its run is publishable and ready, publishing or published, and it is the run's only one for the provider |
| `ReviewLifecycle.DiscardRemovesExactly` | packages/server/src/diffuse/database/finding.py:323-352 | a discard takes exactly the run's unapplied events, its findings, and the pending lineages it was the first to see with what hangs on them; runs published or skipped lose nothing |
| `ReviewLifecycle.PublishingAppliesExactly` | packages/server/src/diffuse/database/finding.py:231-320 | publishing applies exactly the run's unapplied events, but those of new findings that have no thread and were not anchored |
| `ReviewLifecycle.PublishingMovesLineages` | packages/server/src/diffuse/database/finding.py:231-320 | an event that publishing applies leaves its lineage addressed by the run, or active and last seen in it |
| `ReviewLifecycle.ThreadsAreRecorded` | packages/server/src/diffuse/database/finding.py:511-584 | recording threads succeeds only with every comment's root as the thread of the lineage of its new finding, and moves no thread |
| `ReviewLifecycle.GivingUpDiscards` | packages/server/src/diffuse/database/review_store.py:743-824 | superseding a run under its lease, and exhausting its job unless it is superseded, leave the tables of a discard beside the run's row |
| `ReviewStore.DeletionsCompose` | packages/server/src/diffuse/database/finding.py:335-352 | the three deletes, in their order and with their cascades, are one change of the tables |
| `ReviewStore.AnchoredInOrder` | packages/server/src/diffuse/database/finding.py:266-279 | skipping unanchored rows while reading them in order leaves the remaining rows in order |
| `ReviewStore.Store.BeginReviewRun` | packages/server/src/diffuse/database/review_store.py:184-446 | reuses the run of the job or of the same review, reopening it only from failed or generating, or inserts one; a clash of keys is an error and changes nothing |
| `ReviewStore.Store.DeleteProjection` | packages/server/src/diffuse/database/finding.py:335-352 | the deletes never meet an event that still needs its finding, and leave exactly the cleared tables |
| `ReviewStore.Store.DiscardUnpublished` | packages/server/src/diffuse/database/finding.py:323-352 | clears an unpublished run's projection and leaves published and skipped runs alone |
| `ReviewStore.Store.MarkReviewFailed` | packages/server/src/diffuse/database/review_store.py:724-740 | fails a run if and only if it is still generating |
| `ReviewStore.Store.MarkReviewSuperseded` | packages/server/src/diffuse/database/review_store.py:743-786 | discards and supersedes an unfinished run if and only if the worker still holds the lease |
| `ReviewStore.Store.MarkReviewTerminalFailed` | packages/server/src/diffuse/database/review_store.py:789-823 | discards and fails the job's run unless it is published, skipped or superseded |
| `ReviewStore.Store.InsertChange` | packages/server/src/diffuse/database/finding.py:132-228 | one transition inserts its lineage if new, its finding if it has one and its event, or reports which key refuses it |
| `ReviewStore.Store.PersistFindingLineage` | packages/server/src/diffuse/database/finding.py:114-228 | the loop inserts all transitions or stops at the first refused one |
| `ReviewStore.Store.RecordReport` | packages/server/src/diffuse/database/review_store.py:449-584 | marks a generating run ready, or skipped when publication is off, and clears its earlier projection |
| `ReviewStore.Store.PersistReviewReport` | packages/server/src/diffuse/database/review_store.py:449-592 | a report for a generating run with normalised paths is classified and stored as a whole, or refused with nothing changed; any other is refused |
| `ReviewStore.Store.BeginPublication` | packages/server/src/diffuse/database/review_store.py:826-942 | a publishable run that is ready, publishing or published gets one publication per provider; a published one is returned as it is; anything else is refused unchanged |
| `ReviewStore.Store.RecordFindingThreads` | packages/server/src/diffuse/database/finding.py:511-584 | every comment is recorded under the lineage of its `new` event, or the first that fits none is an error |
| `ReviewStore.Store.RecordThread` | packages/server/src/diffuse/database/finding.py:523-584 | on success the lineage of the run's `new` finding with this fingerprint has the comment's thread and no other lineage got one; no thread ever moves to another root, and recording again changes nothing |
| `ReviewStore.Store.ApplyEvent` | packages/server/src/diffuse/database/finding.py:290-320 | one event moves its lineage and is marked applied; nothing else changes |
| `ReviewStore.Store.ActivateFindingLineageEvents` | packages/server/src/diffuse/database/finding.py:231-320 | applies exactly the unapplied anchored events, checking each against the rows read before the loop, or fails when one no longer fits |
| `ReviewStore.Store.MarkPublicationPublished` | packages/server/src/diffuse/database/review_store.py:945-986 | marks the publication, activates the events and publishes the run, with no guard on the run's status |
| `ReviewStore.Store.MarkNativePublicationPublished` | packages/server/src/diffuse/worker.py:1112-1131 | threads, events and run status are committed together or not at all |
| `ReviewWitnesses.SupersededIsPublishedExactly` | packages/server/src/diffuse/database/review_store.py:945-986 | publishing makes a superseded run published if and only if the publication is its own, its comments find their threads and no anchored event of it is out of date |
| `ReviewWitnesses.SupersededCanBePublished` | packages/server/src/diffuse/database/review_store.py:945-986 | a run in which a review is superseded after its publication began, and is published |
| `ReviewStore.Store.MarkPublicationFailed` | packages/server/src/diffuse/database/review_store.py:989-1019 | returns a publishing run to ready and leaves every other status |
| `ReviewStore.Store.LoadOpenFindings` | packages/server/src/diffuse/database/finding.py:459-468 | the loop that adds and removes open findings by event yields the predicted open findings |
| `RelayDelivery.Choose` | packages/relay/src/diffuse_relay/store.py:376-387 | picks the `limit` oldest available events, as a set |
| `RelayDelivery.DeliveryStore.Claim` | packages/relay/src/diffuse_relay/store.py:388-398 | for the caller the event is out of reach until the new lease of 60 seconds is over, and available again after it; every other event, and this one for every other instance, is as available as before; one more attempt is counted |
| `RelayDelivery.DeliveryStore.ClaimEach` | packages/relay/src/diffuse_relay/store.py:388-404 | each chosen event is claimed once and returned once |
| `RelayDelivery.DeliveryStore.PullEvents` | packages/relay/src/diffuse_relay/store.py:370-423 | hands out only events of the caller's installation on which the caller holds no running lease, at most as many as asked for, each under a new lease; what is due and left out is no older; a limit out of range is refused |
| `RelayDelivery.DeliveryStore.RecordWebhookEvent` | packages/relay/src/diffuse_relay/store.py:323-359 | removes what is past retention, and stores the event if and only if its installation is active and its delivery is new |
| `RelayDelivery.DeliveryStore.AcknowledgeEvent` | packages/relay/src/diffuse_relay/store.py:426-447 | removes an event with all its receipts if and only if the caller was handed it |
| `RelayDelivery.AtMostOneHandOutPerLease` | packages/relay/src/diffuse_relay/store.py:384-397 | spaced hand-outs mean an instance receives a stored event at most once in any lease period |
| `RelayDelivery.DeliveryNeitherOverlapsNorLoses` | packages/relay/src/diffuse_relay/store.py:332-447 | in every run, hand-outs of one stored event to one instance are more than 60 seconds apart, `attempts` counts them, and an event once stored is stored still unless some step in between acknowledged it for an instance with a receipt or found it more than 30 days old |
| `RelayDelivery.StoredUntilDropped` | packages/relay/src/diffuse_relay/store.py:332-447 | in every run an event is stored if and only if no step since dropped it; only an acknowledgement by a recipient and ingress past retention drop one, and nothing brings it back |
| `RelayDelivery.AttemptsCountHandOuts` | packages/relay/src/diffuse_relay/store.py:388-398 | in every run the `attempts` column of a stored event is the number of times it was handed to the instance, and there is no receipt if and only if there was no hand-out |
| `RelayDelivery.StepIsSound` | packages/relay/src/diffuse_relay/store.py:323-447 | every single operation keeps spacing, counts and the account of what was removed |
| `Base64Url.DecodesEncoded` | packages/protocol/src/diffuse_protocol/secret.py:32-37 | decoding inverts encoding on all bytes; the text has length ceil(4n/3), no padding and no dot |
| `Base64Url.SymbolsArePadded` | packages/protocol/src/diffuse_protocol/secret.py:32-37 | padding by `-len % 4` restores exactly the pads of the padded form (section 5 and section 3.2 of RFC 4648) |
| `Base64Url.EncodeIsSymbols` | packages/protocol/src/diffuse_protocol/secret.py:32-33 | stripping trailing pads from the padded form leaves exactly the symbols |
| `Base64Url.DecodesPadded` | packages/protocol/src/diffuse_protocol/secret.py:36-37 | the padded decoder inverts the padded encoder, group by group |
| `SealedSecret.FirstMatchDecides` | packages/protocol/src/diffuse_protocol/secret.py:114-117 | the first key with a matching id alone decides whether a ciphertext opens |
| `SealedSecret.SealedShape` | packages/protocol/src/diffuse_protocol/secret.py:74-84 | a sealed value is recognised as sealed and splits into its four parts |
| `SealedSecret.UnsealInvertsSeal` | packages/protocol/src/diffuse_protocol/secret.py:78-117 | a sealed secret opens to its plaintext if and only if the purpose is the same and the first key with the sealing key's id is the sealing key; it never opens to anything else |
| `SealedSecret.UnsealsExactly` | packages/protocol/src/diffuse_protocol/secret.py:87-117 | a stored value opens as a text if and only if it is sealed text whose payload the first key with its key id opens as that text for the purpose, or it does not look sealed, is that text, and plain text is allowed |
| `SealedSecret.DistinctKeyIdsFind` | packages/protocol/src/diffuse_protocol/secret.py:114-117 | with distinct key ids every configured sealing key is found, wherever rotation put it |
| `SealedSecret.SharedKeyIdHides` | packages/protocol/src/diffuse_protocol/secret.py:114-117 | a different key with the same id placed first makes the secret unreadable |
| `RelayCredentials.LiveIsLatestUnrevoked` | packages/relay/src/diffuse_relay/store.py:222-258 | the live token of an installation is the one issued last with no revocation of it and no uninstall since |
| `RelayCredentials.TokenOpensIffLive` | packages/relay/src/diffuse_relay/store.py:293-305 | with an injective hash, a token opens an instance of an installation if and only if it is that installation's live token |
| `RelayCredentials.OneInstanceOpens` | packages/relay/src/diffuse_relay/store.py:293-305 | at most one instance answers to a token |
| `RelayCredentials.TokensAuthenticateExactly` | packages/relay/src/diffuse_relay/store.py:222-305 | in every run a token opens an instance if and only if it is the latest of its installation and nothing revoked it since, and then only one |
| `RelayCredentials.AuthenticationFollowsHistory` | packages/relay/src/diffuse_relay/store.py:293-320 | authenticating answers nobody exactly when no installation has the token as its latest unrevoked one, and otherwise answers for an installation that has |
| `RelayCredentials.AuthenticationKeepsTheKeys` | packages/relay/src/diffuse_relay/store.py:103-126 | authentication returns the stored signing key and leaves every instance's key readable and unchanged, whatever it is sealed under afterwards |
| `RelayCredentials.ResealingKeepsTheKey` | packages/relay/src/diffuse_relay/store.py:93-126 | a stored key moved onto the current key opens to the same plaintext and needs no further move |
| `RelayCredentials.ClaimDeliversWhatWasMinted` | packages/relay/src/diffuse_relay/store.py:810-848 | claiming a ready session succeeds if and only if the sealing key is the first with its id, and delivers exactly what completion minted |
| `RelayCredentials.CompletionReturnsCredentials` | packages/relay/src/diffuse_relay/store.py:685-767 | the session is updated last and only if it is still pending; since enrolment leaves sessions alone, that update fails for no completion that passed its guards, so None comes back if and only if a guard fails, and then nothing changes |
| `RelayCredentials.SessionsDiscloseOnce` | packages/relay/src/diffuse_relay/store.py:685-854 | in every run the sealed columns are present exactly while a session is ready, no session discloses twice, and what it discloses is what was minted |
| `RelayCredentials.EveryRunIsSound` | packages/relay/src/diffuse_relay/store.py:178-854 | every run of the ten operations keeps bindings, sessions and disclosures sound |
| `RelayCredentials.RelayStore.InsertInstanceCredentials` | packages/relay/src/diffuse_relay/store.py:222-258 | inserts an instance or, where a live one exists, replaces its credentials under the same id |
| `RelayCredentials.RelayStore.RedeemConnectionCode` | packages/relay/src/diffuse_relay/store.py:261-283 | an unexpired unused code is spent once and issues credentials for its installation |
| `RelayCredentials.RelayStore.CompleteConnectSession` | packages/relay/src/diffuse_relay/store.py:685-767 | credentials are issued if and only if the session is pending, unexpired and allows the installation |
| `RelayCredentials.RelayStore.StoreReadySession` | packages/relay/src/diffuse_relay/store.py:718-766 | installation and credentials are stored, then the sealed columns if the session is still pending; if it is not, no credentials are returned |
| `RelayCredentials.RelayStore.ClaimConnectSession` | packages/relay/src/diffuse_relay/store.py:770-854 | without the session's poll hash the answer is not found and nothing changes; with it each status gets its own answer, an expired pending session fails, and only a ready one is consumed |
| `RelayCredentials.ClaimNeedsThePoll` | packages/relay/src/diffuse_relay/store.py:772-790 | a claim for an unknown session, or under another poll hash, finds nothing and changes nothing |
| `RelayCredentials.DisclosureNeedsThePoll` | packages/relay/src/diffuse_relay/store.py:770-839 | in every run, each disclosure was made to a claim carrying the poll hash with which the one step that created the session opened it |
| `RelayLifecycle.SessionsMoveExactly` | packages/relay/src/diffuse_relay/store.py:581-854 | each request moves each session as the table says: what moves it, from which status, to which, for which installation, and before which time |
| `RelayLifecycle.CodesMoveExactly` | packages/relay/src/diffuse_relay/store.py:200-291 | a request spends a code, and issues a token for the code's installation, if and only if it redeems it unspent and in time |
| `RelayLifecycle.CodesIssueOnce` | packages/relay/src/diffuse_relay/store.py:261-291 | in every run, between two redemptions of a code it was created anew |
| `RelayLifecycle.IssuedCredentialsAuthenticate` | packages/relay/src/diffuse_relay/store.py:222-320 | freshly issued credentials authenticate as the instance enrolled, with the signing key minted, if and only if the sealing key is the first configured one with its id |
| `RelayCredentials.RelayStore.DeliverCredentials` | packages/relay/src/diffuse_relay/store.py:810-848 | opening both columns consumes the session and clears them; failing to open either changes nothing |
| `RelayCredentials.RelayStore.RevokeInstance` | packages/relay/src/diffuse_relay/store.py:486-498 | revokes exactly the live instances the token opens |
| `RelayCredentials.RelayStore.SetInstallationActive` | packages/relay/src/diffuse_relay/store.py:450-483 | sets the flag of a known installation and, on uninstall, revokes all its live instances |
| `RelayCredentials.RelayStore.AuthenticateInstance` | packages/relay/src/diffuse_relay/store.py:293-320 | answers with the instance the token opens and its signing key, re-sealing the stored key at best effort; an unreadable key is an error and changes nothing |
| `HostRunner.PruningKeepsActive` | packages/host/src/diffuse_host/api.py:151-161 | pruning removes only terminal reviews and ends below the bound unless none is terminal |
| `HostRunner.OneHolder` | packages/host/src/diffuse_host/api.py:58-74 | two threads that hold the slot are the same thread, and then the slot is taken |
| `HostRunner.OneActive` | packages/host/src/diffuse_host/api.py:58-74 | two reviews that are not terminal are the same review |
| `HostRunner.StepIsSound` | packages/host/src/diffuse_host/api.py:231-316 | every atomic section of every thread keeps slot, registry, statuses and results coherent |
| `HostRunner.StepEvolves` | packages/host/src/diffuse_host/api.py:231-316 | no atomic section loses a review, changes a terminal one, drops a requested cancellation, re-registers a retained session under another review or evicts an active one |
| `HostRunner.EveryInterleavingIsSound` | packages/host/src/diffuse_host/api.py:231-286 | in every interleaving the slot is free or held by exactly one execution, at most one review is active, the registry has at most 128 entries, sessions are distinct and no review is executed twice |
| `HostRunner.ReviewsFollow` | packages/host/src/diffuse_host/api.py:231-316 | between any two moments of an interleaving a review only moves forward |
| `HostRunner.AcknowledgedCancellationWins` | packages/host/src/diffuse_host/api.py:302-316 | a review seen as `cancel_requested` can only end `cancelled`, without a result, whatever the threads do |
| `HostRunner.TerminalIsFinal` | packages/host/src/diffuse_host/api.py:186-190 | a terminal review never changes again and holds a result if and only if it completed |
| `HostRunner.RunningHoldsResultWhileFinishing` | packages/host/src/diffuse_host/api.py:241-247 | in every interleaving a `running` review holds a result if and only if its thread stands between writing the result and its last section |
| `HostRunner.RunningCanHoldResult` | packages/host/src/diffuse_host/api.py:241-247 | an interleaving in which a poll sees `running` together with a result |
| `HostRunner.Runner.PruneTerminalReviews` | packages/host/src/diffuse_host/api.py:151-161 | the loop removes the oldest terminal reviews, one at a time, until the registry is below its bound |
| `HostRunner.Runner.FindTerminal` | packages/host/src/diffuse_host/api.py:154-160 | finds the oldest terminal review, or that there is none |
| `HostRunner.Runner.StartReview` | packages/host/src/diffuse_host/api.py:260-286 | a known session is returned if its dispatch is the same and refused if it is not; an unknown one is registered if and only if the slot is free |
| `HostRunner.Runner.CancelReview` | packages/host/src/diffuse_host/api.py:303-316 | an authorised cancellation of a registered session is acknowledged or finds a terminal status; any other is not found |
| `HostRunner.Runner.FinishReview` | packages/host/src/diffuse_host/api.py:242-254 | the review ends terminal, `cancelled` if and only if a cancellation was requested, with its result kept only if it completed; every other review stays |
| `CheckRuns.RowUpdatesFollow` | packages/server/src/diffuse/database/check.py:111-316 | each guarded update keeps the row coherent, never leaves `completed` and never rewrites an external id |
| `CheckRuns.CompletionCallsAreBounded` | packages/server/src/diffuse/worker.py:1567-1633 | however many workers and sweeps interleave, at most eight completion requests are sent, all to the row's one external id |
| `CheckRuns.CompletionIsFinal` | packages/server/src/diffuse/database/check.py:111-316 | between any two moments a completed row is unchanged and an external id, once written, stays; a completed row has both id and conclusion, a failed one and no other an error, and each step moves the status along the drawn edges only |
| `CheckRuns.AttemptsAreCounted` | packages/server/src/diffuse/database/check.py:207-233 | in every run the attempt count equals the number of times a worker began completing while the row was open, so it exceeds eight exactly after more than eight of them |
| `CheckRuns.AttemptsPassTheBound` | packages/server/src/diffuse/database/check.py:207-233 | for every number there is a run that counts so many attempts |
| `CheckRuns.DistinctTicketsAreFew` | packages/server/src/diffuse/database/check.py:207-233 | calls under distinct attempt numbers up to n are at most n |
| `CheckRuns.StepTickets` | packages/server/src/diffuse/worker.py:1579-1633 | every step keeps each attempt number held by one worker or spent by one call |
| `CheckRuns.StepIds` | packages/server/src/diffuse/worker.py:1596-1633 | every step keeps every worker's believed external id equal to the row's |
| `CheckRuns.CheckRun.Begin` | packages/server/src/diffuse/database/check.py:48-139 | completion, external id and attempts are kept, and a row that is not completed can afterwards be given an external id if and only if it has none or that one |
| `CheckRuns.CheckRun.MarkStarted` | packages/server/src/diffuse/database/check.py:175-204 | a completed row or one with another id refuses; otherwise the id sticks: the same one is accepted again without effect and every other is refused from then on |
| `CheckRuns.CheckRun.BeginCompletion` | packages/server/src/diffuse/database/check.py:207-233 | every row but a completed one gets an attempt number above all earlier ones, and nothing else of it changes |
| `CheckRuns.CheckRun.MarkCompleting` | packages/server/src/diffuse/database/check.py:251-266 | succeeds if and only if the row was begun, is not completed and has an external id; then it can be completed with any conclusion |
| `CheckRuns.CheckRun.MarkCompleted` | packages/server/src/diffuse/database/check.py:269-293 | sets the conclusion only on a row with an external id, keeps that id, and leaves a row that no update can change |
| `CheckRuns.CheckRun.MarkFailed` | packages/server/src/diffuse/database/check.py:296-316 | keeps completion, external id and attempts; a failed row can be taken up again if and only if it has an external id |
| `CheckRuns.CheckRun.ResolveAttempt` | packages/server/src/diffuse/worker.py:1577-1605 | up to a resolved external id under a counted attempt, or the end of the worker |
| `CheckRuns.CheckRun.SendCompletion` | packages/server/src/diffuse/worker.py:1606-1633 | sends only after the completing mark; an accepted request completes the row with its conclusion |
| `CheckRuns.CheckRun.CompleteNativeCheck` | packages/server/src/diffuse/worker.py:1567-1633 | one undisturbed worker takes exactly the steps of the interleaved model |
| `CheckRuns.CreatingAlone` | packages/server/src/diffuse/database/check.py:111-223 | one undisturbed worker starts an open row under an id that fits it, leaves a completed row alone, and fails the row without an id or under another one |
| `CheckRuns.CompletingAlone` | packages/server/src/diffuse/worker.py:1567-1633 | one undisturbed worker, up to the eighth attempt, sends exactly one request under the id it knows or finds and records the answer; otherwise it sends none and the row fails |
| `Feedback.ActiveMeans` | packages/server/src/diffuse/database/feedback.py:536-546 | the projection by newest event shows a reaction if and only if it was observed on the thread and never withdrawn |
| `Feedback.RecordingKeepsPairs` | packages/server/src/diffuse/database/feedback.py:262-364 | every reaction's log stays a prefix of observed, withdrawn |
| `Feedback.SyncShowsWhatWasFetched` | packages/server/src/diffuse/database/feedback.py:227-385 | after a sync a reaction is active if and only if it was fetched, never withdrawn before and not another thread's |
| `Feedback.ProjectionIsFetchedSet` | packages/server/src/diffuse/database/feedback.py:227-385 | the projection equals the fetched set if and only if no fetched reaction was withdrawn before or is another thread's |
| `Feedback.SecondSyncAppendsNothing` | packages/server/src/diffuse/database/feedback.py:227-385 | a second sync with the same reactions appends nothing |
| `Feedback.OtherThreadsAreUnaffected` | packages/server/src/diffuse/database/feedback.py:227-385 | a sync of one thread leaves every other thread's projection |
| `Feedback.CountsAgree` | packages/server/src/diffuse/database/feedback.py:380-385 | the counts returned are those of the projection whenever the fetched reactions are as logged |
| `Feedback.TotalAgreesExactly` | packages/server/src/diffuse/database/feedback.py:380-385 | the total returned equals the projection's if and only if no fetched reaction was withdrawn before or is another thread's |
| `Feedback.ActiveMeansHeldSinceFirstFetch` | packages/server/src/diffuse/database/feedback.py:227-385 | after any run of synchronisations of any threads, a reaction is active on a thread if and only if that thread was the first to fetch it and every later synchronisation of the thread fetched it again |
| `Feedback.WithdrawnStaysAway` | packages/server/src/diffuse/database/feedback.py:262-364 | fetched, gone and fetched again, a reaction does not come back |
| `Feedback.FeedbackStore.Record` | packages/server/src/diffuse/database/feedback.py:265-312 | afterwards the event's key is logged and recording it again changes nothing; one event is appended if and only if the key was new, and no other key appears or goes |
| `Feedback.FeedbackStore.ObserveAll` | packages/server/src/diffuse/database/feedback.py:262-312 | appends one observation per new reaction, and counts them |
| `Feedback.FeedbackStore.WithdrawAll` | packages/server/src/diffuse/database/feedback.py:314-364 | withdraws every reaction active before that was not fetched, and counts them |
| `Feedback.FeedbackStore.ReconcileReviewReactions` | packages/server/src/diffuse/database/feedback.py:227-385 | refuses duplicate ids and stale generations with the log unchanged, and otherwise synchronises; the counts are the events appended |
| `Learning.UnmatchedKeyIsNew` | packages/server/src/diffuse/database/learning.py:544-576 | a suggestion that matches no rule has a deduplication key no rule has |
| `Learning.OutcomesTellWhatHappened` | packages/server/src/diffuse/database/learning.py:640-767 | a rejected suggestion changes nothing, a consolidated one adds no rule, a proposed one adds exactly one |
| `Learning.SupportedExactly` | packages/server/src/diffuse/database/learning.py:640-655 | a suggestion is supported if and only if all evidence it cites is known, there is enough of it, and as many different pull requests as asked for are among it |
| `Learning.EvidenceIsAudited` | packages/server/src/diffuse/database/learning.py:656-767 | evidence added to a known rule is audited exactly if some of it is new and the generation run has not audited it yet |
| `Learning.ConsideringIsSound` | packages/server/src/diffuse/database/learning.py:640-767 | every suggestion keeps keys distinct, evidence counts exact and the newest snapshot in agreement with its row |
| `Learning.ModeratingIsSound` | packages/server/src/diffuse/database/learning.py:859-1071 | every moderation keeps the same, and a rejected rule stays rejected |
| `Learning.ModerationRules` | packages/server/src/diffuse/database/learning.py:859-1071 | a repeated event key returns the rule unchanged; a success needed the expected version and a rule not rejected, adds one version if it is an edit, and repeating it changes nothing |
| `Learning.ModerationMovesAsNamed` | packages/server/src/diffuse/database/learning.py:930-1071 | under a new key and the current version, an action goes through if and only if the rule's status is one it starts from, an edit asks for other content, and the content asked for is valid; the rule then has the status the action leads to, and the audit entry the action's name |
| `Learning.StatusesSpellTheAudit` | packages/server/src/diffuse/database/learning.py:531-1071 | in every run, the audit actions of each rule come in turn from its proposal on, and their fold is the rule's status |
| `Learning.EditsChangeExactly` | packages/server/src/diffuse/database/learning.py:937-994 | an edit that goes through changes the content if and only if what it asks for is still different once valid |
| `Learning.EditCanChangeNothing` | packages/server/src/diffuse/database/learning.py:937-994 | a run ends with an edit that adds a version and an audit entry and leaves the content as it was |
| `Learning.RulesStayAudited` | packages/server/src/diffuse/database/learning.py:531-1071 | over all generation and moderation no two rules share a key, each evidence count is the size of its evidence, the newest snapshot agrees with the row, and a version is one more than the edits |
| `Learning.RuleStore.PersistRuleSuggestions` | packages/server/src/diffuse/database/learning.py:579-803 | proposed, consolidated and rejected add up to the suggestions, and the rules grow by the proposed ones |
| `Learning.RuleStore.Consider` | packages/server/src/diffuse/database/learning.py:640-767 | one suggestion is rejected, consolidated into the rule it matches, or proposed |
| `Learning.RuleStore.Support` | packages/server/src/diffuse/database/learning.py:703-767 | citations are inserted once each and the evidence is counted again |
| `Learning.RuleStore.Moderate` | packages/server/src/diffuse/database/learning.py:859-1071 | applies the guarded action with its audit entry, or refuses with nothing changed; where an action may start and lead is given by `Learning.ModerationMovesAsNamed` |
| `Annotations.CandidatesAreFirsts` | packages/server/src/diffuse/github/check.py:274-280 | the candidates are the findings at ascending positions, and those positions are exactly the first right-side finding of each fingerprint |
| `Annotations.CollectCandidates` | packages/server/src/diffuse/github/check.py:274-280 | the loop with its set of seen fingerprints keeps exactly the first right-side finding of each, in order |
| `Annotations.RankedIsPartition` | packages/server/src/diffuse/github/check.py:282-289 | ranking puts the blocking positions first and the others after, each in their own order |
| `Annotations.KeptPositions` | packages/server/src/diffuse/github/check.py:282-291 | above the cap exactly 50 positions are kept, in order: the first blocking ones, and in the slots they leave the first of the others |
| `Annotations.WinnersPreferBlocking` | packages/server/src/diffuse/github/check.py:259-291 | every blocking candidate wins a slot when there are enough for them, and otherwise no other candidate does |
| `Annotations.AnnotatedIsASelection` | packages/server/src/diffuse/github/check.py:254-295 | the annotations are an order-preserving selection of the candidates of length min(n, 50), made of the first blocking ones and then the first of the others |
| `Annotations.AnnotateCheck` | packages/server/src/diffuse/github/check.py:254-295 | reported and still-open findings together, deduplicated and capped |
| `Annotations.BlockingIsShownExactly` | packages/server/src/diffuse/github/check.py:254-295 | some annotation is blocking if and only if the first right-side finding of some fingerprint blocks, however many others there are |
| `Annotations.RedIsUnexplainedExactly` | packages/server/src/diffuse/github/check.py:193-295 | the check is red if and only if a finding handed over to it blocks, and shows no blocking annotation if and only if every blocking finding is off the right side or has its fingerprint on an earlier finding that does not block |
| `Annotations.LeftSideLeavesRedUnexplained` | packages/server/src/diffuse/github/check.py:277-279 | with one open finding, which is on the left side, the check is red and shows nothing |
| `Annotations.ShadowLeavesRedUnexplained` | packages/server/src/diffuse/github/check.py:276-280 | with one open finding that the run reports again with a severity that does not block, the check is red and shows only the latter |
| `SessionBudget.Ceiling` | packages/host/src/diffuse_host/investigation.py:355-376 | the rounding used for timeouts: the least whole number of seconds that is not short |
| `SessionBudget.Remaining` | packages/host/src/diffuse_host/investigation.py:355-376 | an attempt is given no more than its profile, ends less than a second past the deadline, is only cut short by the deadline, and is refused if and only if the deadline has passed |
| `SessionBudget.RunOnceOrRaisedBudget` | packages/host/src/diffuse_host/investigation.py:273-352 | at most two attempts, the second with doubled turns and only after a coverage caveat in time; every attempt ends less than a second past the deadline; reported tokens are the sum over all attempts |
| `Dispatch.ArchiveTextFits` | packages/protocol/src/diffuse_protocol/dispatch.py:245-249 | every archive within its byte limit encodes to a text within the verifier's character limit |
| `Dispatch.TokenSplits` | packages/protocol/src/diffuse_protocol/dispatch.py:227-241 | a token has exactly three parts, none of which contains the separator |
| `Dispatch.UnpacksPacked` | packages/protocol/src/diffuse_protocol/dispatch.py:244-289 | a packed envelope unpacks to itself with its expiry in whole seconds if and only if the sealing key is the first with its id |
| `Dispatch.ValidityIgnoresExpiry` | packages/protocol/src/diffuse_protocol/dispatch.py:139-186 | cutting the expiry never makes a valid envelope invalid, nor the reverse |
| `Dispatch.DigestsAreSpacedHex` | packages/protocol/src/diffuse_protocol/dispatch.py:102-113 | a digest is accepted if and only if it is the right number of hexadecimal digits of either case with white space around them |
| `Dispatch.TruncatedIsTowardsZero` | packages/protocol/src/diffuse_protocol/dispatch.py:225-225 | a fraction of a second of the expiry is cut off, never added |
| `Dispatch.VerifyInvertsSign` | packages/protocol/src/diffuse_protocol/dispatch.py:197-295 | a signed envelope verifies if and only if its whole-second expiry is ahead and its capability's key is found, and comes back with only that expiry changed |
| `Dispatch.VerifiedIsSigned` | packages/protocol/src/diffuse_protocol/dispatch.py:235-295 | a token verifies as an envelope if and only if it is short enough, its third part is a signature that checks over its second, the second says that envelope, field by field, and the envelope is valid and unexpired |
| `Dispatch.ForgeriesAreRefused` | packages/protocol/src/diffuse_protocol/dispatch.py:235-243 | a three-part token whose signature does not decode or does not check is refused, whatever its body says |
| `Prompt.DelimitersAreFound` | packages/protocol/src/diffuse_protocol/prompt.py:23-26 | every delimiter of the grammar is found at its start by the scanner, whatever follows |
| `Prompt.FoundAreDelimiters` | packages/protocol/src/diffuse_protocol/prompt.py:23-26 | whatever the scanner finds is a delimiter of the grammar |
| `Prompt.NoDelimiterIsFormed` | packages/protocol/src/diffuse_protocol/prompt.py:30-33 | the output does not start with a delimiter, not even one formed across replacements |
| `Prompt.NeutralizedIsClean` | packages/protocol/src/diffuse_protocol/prompt.py:30-33 | no suffix of neutralised text starts with a delimiter |
| `Prompt.CleanIsUnchanged` | packages/protocol/src/diffuse_protocol/prompt.py:30-33 | text without delimiters is left as it is |
| `Prompt.NeutralizingTwice` | packages/protocol/src/diffuse_protocol/prompt.py:30-33 | neutralising is idempotent |
| `Prompt.ChangedExactlyWhenForged` | packages/protocol/src/diffuse_protocol/prompt.py:30-33 | a text is changed if and only if some part of it is a delimiter of the grammar |
| `Prompt.NoPartIsADelimiter` | packages/protocol/src/diffuse_protocol/prompt.py:30-33 | no part of neutralised text is a delimiter |
| `PromptTags.FramingIsUsable` | packages/protocol/src/diffuse_protocol/prompt.py:8-27 | the structural tags and the replacement text meet what the proofs need of them |
| `PromptTags.NeutralizationIsComplete` | packages/protocol/src/diffuse_protocol/prompt.py:8-33 | for Diffuse's own tags: no part of the output is a delimiter, neutralising again changes nothing, and a text is unchanged if and only if no part of it is a delimiter |

## Left out

- ReviewRuns.PredictionReachesPublication: a prediction can also survive some transactions of the same pull request that are not counted as harmless here; for any single moment `ReviewRuns.PublicationAgrees` gives the exact condition.
- Tar bytes, JSON text, digests, encryption and signatures: parameters with the contracts named above.
- File descriptors, symbolic-link races and identity checks while archiving: the source tree does not change while it is read.
- The process umask: a file is created with mode 0o644 before its final mode is set.
- Lock waits and `SKIP LOCKED`: concurrency is between store functions, not inside one.
- Failure to start a worker thread, and process restarts of the host.
- The decoder of base64url text refuses characters outside the alphabet, where the library skips some of them; signed and sealed text never contains any.
- Fractions of a second in the relay: session and lease times are whole seconds.
- HTTP handlers, clients, pages, command lines, environment probes, sandboxing and subprocesses.
- Thread operations and review numbers, outcome recording, and the context snapshots of a review run.
- The order in which open findings are displayed; the model keeps which finding is open on which lineage.
- Unique keys of the finding table beyond those an insertion of a report can meet.
- Feedback from review comments and outcomes, and the repository-wide summary beyond the reaction projection.
- The gate that queues a rule-learning job, its token counts, and the validation of a rule's text, which is a parameter.
- OAuth states, display names, instance status pages, webhook payload checks and the relay's webhook signatures.
- Pydantic limits on dispatch fields other than those that decide whether an envelope verifies.
- `agent_investigation.py`, `migrations.py` and the token caches: single-row guards and a prefix check.
- SessionBudget.RunOnceOrRaisedBudget: tokens of an attempt that raises an error other than the coverage caveat are not reported by the code and are not counted.
- CheckRuns.CheckRun.CompleteNativeCheck: describes one undisturbed worker; disturbed ones are the interleavings of `CheckRuns.CompletionCallsAreBounded`.
