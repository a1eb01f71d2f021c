# Cloudivision: a verified model

This project models five parts of the Cloudivision CI/CD controller in Dafny and proves what they promise over whole
runs, unbounded trees and unbounded lists.

1. **The BuildRun quota scheduler.** `Quota` holds one decision: classify the project's runs, sort the waiting ones by
   age, admit, queue or deny. `QuotaProtocol` runs many such decisions at once, each on its own past snapshot, and proves
   that the concurrency limit holds. A run keeps its slot because the runs that stand between it and the slot (its
   *rivals*: everything active, and everything waiting and older) never become more numerous. `QuotaFairness` proves that
   nobody starves.
2. **The Release reconciler.** `ReleasePlan` gives one reconcile as the sequence of requests it sends, so that a crash is
   a prefix. `ReleaseReconciler` is the imperative form, proved to send exactly that plan. `ReleaseRuns` lets reconciles
   cut short anywhere alternate with approve and reject. `ReleaseOutcomes` says what one complete reconcile leaves, for
   every release and every reply. `Checkpoint` lets any number of reconciles run at once on stale copies. `DirectCommit`
   adds the Git repository and other writers to it, and proves for which configurations crashes cause at most one
   content-changing push.
3. **GitOps image mutation.** `YamlTree` and `YamlLaws` hold the nested field edits on trees and their laws; `YamlTrail`,
   `YamlHeap` and `YamlEdit` hold the same edits in place, on nodes linked in memory, proved against the tree functions.
   `FieldPath`, `Helm` and `HelmFile` are the Helm values update, `HelmSecondRun` what it does to its own result and
   `HelmBesideOthers` what it does to a result that others have changed elsewhere, both on the groundwork of `ThreeEdits`.
   `Kustomize` is the Kustomize update, `RawWorkload` and `RawManifest` (in place) the raw manifest update, `ImageRef` the
   image references, `ImageUpdate` all three strategies.
4. **Status writing.** `Conditions` is the condition list, `StatusStore` the get, merge and compare-and-swap loop under
   any interleaving of writers, `BuildRunPhase` and `BuildRunStatus` the BuildRun phase machine.
5. **Listing and intake.** `Listing` filters, sorts and pages; `Webhook` deduplicates deliveries; `DnsLabel` names
   webhook BuildRuns; `BoundedOutput` holds the byte budgets.

`Order` is Go's string order, `Wrappers` has `Option` and `Result`.

## Assumptions

- Quota: the project's quotas do not change; a run is not deleted, nor cancelled while its own admission is in flight; a
  workload reference once set stays; a reconcile takes its own run and the project's listing from one snapshot, and
  successive snapshots of one run do not go back. At the start no more runs are active than the limit, and one marked
  Running without a workload holds a slot. A new run must not sort before a run without a workload that exactly fills the
  limit: `CreationIsSafeIff` shows that the limit stays safe exactly then, and `LastComerOvertakesNobody` that runs which
  sort last satisfy it.
- Release: whether the environment requires approval does not change during a release; API actions come between
  reconciles (`ReleaseRuns`) or are arbitrary status writes that keep the commit (`Checkpoint`). One clock reading per
  reconcile. In `DirectCommit` other writers push anything; for the bound on pushes they leave, between a push and the
  record of its commit, what the update is about as it reads: the three configured fields, the first image entry of the
  name, or the chosen containers (`Considerate`). `AtMostOnceIff` says for which fields and images that is enough. The
  files are in the form in which the program prints them, so that equal trees are equal files; and the Git client is the
  repository's `ExecGit`, for which a commit of nothing new succeeds and leaves the head where it is.
- YAML: printing and parsing are inverse on trees. Parsed mappings hold whole pairs (`Paired`); where a law needs unique
  keys it says so (`UniqueKeys`), and `DeleteThenLookup` shows where duplicates would matter.
- Webhook: BuildRuns are not deleted. That names stay apart is no assumption; where they do not, see below.

## Where the code falls short of a promise

- Two runs created in the same second are ordered by name, so a later run can overtake one that exactly fills the limit,
  and the limit can then be exceeded: `SameSecondCreationBreaksTheLimit`, and for every such creation
  `OvertakingBreaksTheLimit`.
- With conflicting Helm fields the update never becomes a no-op. `SecondUpdateIs` tells from the fields and the image what
  a second run on its own result does: it reports a change that is none, or, when an empty tag is deleted and the digest
  field nests with the repository field or lies above the tag field, it fails. Then a crash between push and checkpoint
  leaves the change pushed and the release failed: `CrashBeforeTheCheckpointFails`, and for concrete fields
  `DigestAboveTheTagFailsAfterThePush`.
- Some fields make a second push possible although other writers touch none of them: a deleted tag field above the digest
  field, which moves the digest to the end of its mapping; and a deleted field, not at the top level, that takes another
  configured field along and leaves empty mappings. `Restless` is the exact condition, `AtMostOnceIff` proves both
  directions, and `DigestBelowTheTagIsPushedTwice` is a configuration of the first kind.
- A set field may not show in the end, because a later edit replaces or removes it: `NamesImageIff`, `CarriesIff`.
- A raw manifest update with an image whose reference does not read back (for example a tag with a slash) selects no
  container the second time and fails, unless the container is named or the only one: `SecondRawRun`,
  `SlashInTagLosesTheMatch`. A crash before the checkpoint then has the same effect.
- The webhook index has no namespace in its key, and it also records deliveries for which nothing is built. So a delivery
  is answered as a duplicate and never built after one of the same event to an equally named repository of another
  namespace, and after one that was filtered or a ping, as when a filter is changed and the event sent again:
  `HiddenDeliveryIsDropped`. `NobodyIsDroppedIff` and `ProgramDropsNobodyIff` combine this with the next point.
- BuildRun names do not tell all events apart. Two repositories whose names have the same words, such as a-b and a--b,
  share the names of equal events, and a label over fifty characters cuts into the event's hash: `OneNameIff`,
  `LabelsAgreeIff`, `NamesTellEventsApartIff`. A delivery whose name is taken is answered with the other event's BuildRun
  and never built, even without an index: `RunsAreNotMistakenIff`, `DashesAreNotTold`.
- The runner's log writer takes nothing off its budget when the underlying writer fails. Up to the first failure the limit
  holds (`FirstFaultIsHarmless`); after failures, what is written later stays within it exactly if nothing got through in
  them: `StaysWithinTheLimitIff`.

## Model

| member | source | states |
|---|---|---|
| Quota.EvaluateProjectQuota | internal/controller/quota.go:24-81 | The loops and the sort compute the decision on the project, whose meaning in the runs' own fields is `Quota.DecisionIs`. |
| Quota.Classify | internal/controller/quota.go:34-46 | Active runs are counted and the waiting ones collected, each exactly once, the rest ignored. |
| Quota.SortByAge | internal/controller/quota.go:47-52 | The queue is a permutation of the waiting runs, earliest creation first, ties by name; `Order.LessIff` says which name is first. |
| Quota.RankOf | internal/controller/quota.go:57-63 | The search finds the run's position in the queue, or reports -1 exactly when it is not waiting. |
| Quota.QueuePositionIsRank | internal/controller/quota.go:47-63 | A run's position in the sorted queue is the number of waiting runs older than it. |
| Quota.DecisionsSplitTheQueue | internal/controller/quota.go:53-80 | One snapshot splits the queue into consecutive admitted, queued and denied stretches that cover it; admissions fill the limit and no more, and at most MaxQueuedBuildRuns runs are queued when that is positive. |
| Quota.DecisionIs | internal/controller/quota.go:24-81 | In phases, references, creation times and names alone: a run is admitted exactly if it has not started and fewer than the maximum of runs are running or created earlier, denied exactly if the queue before it is full, never both; active and queued count what they say. |
| Quota.FirstComeFirstServed | internal/controller/quota.go:47-80 | On one snapshot, an admitted run was created before every queued or denied one of the project, and a queued one before every denied one; names decide within one second. |
| Quota.UngovernedRunsPass | internal/controller/quota.go:24-33 | Without a positive limit, or with a workload already there, a run is neither queued nor denied. |
| Order.LessIff | internal/controller/quota.go:47-52 | One text sorts before another exactly if it is a proper prefix of it, or has the smaller character where they first differ. |
| QuotaProtocol.AdmitIffSlot | internal/controller/quota.go:53-73 | The controller's test "rank below available" holds exactly when fewer than the maximum of runs stand before this one. |
| QuotaProtocol.SlotIsStable | internal/controller/buildrun_controller.go:126-167 | Every step, the rewriting of active runs and requeuing on an old snapshot included, keeps the slot of every run without a workload: a decision on an old snapshot is still right now. |
| QuotaProtocol.RecordKeepsSlot | internal/controller/buildrun_controller.go:147-167 | Persisting one admission never takes the slot of another run, although it makes a younger run active. |
| QuotaProtocol.CreateKeepsSlot | internal/controller/quota.go:47-52 | A new run takes a slot away exactly when it sorts before a run that exactly fills the limit. |
| QuotaProtocol.GoodIsBounded | internal/controller/quota.go:53-73 | In every good state active runs and admissions in flight are at most the maximum: all but the youngest in flight rival that one. |
| QuotaProtocol.LimitHolds | internal/controller/buildrun_controller.go:126-167 | After any interleaving, from any start within the limit, active runs and admissions in flight together never exceed MaxConcurrentBuildRuns. |
| QuotaProtocol.AdmissionIsNotRevoked | internal/controller/buildrun_controller.go:126-145 | An admitted run whose admission is not yet persisted is not queued or denied by a later reconcile. |
| QuotaProtocol.LastComerOvertakesNobody | internal/controller/quota.go:47-52 | A run that sorts after every run without a workload takes no slot away. |
| QuotaProtocol.LaterCreationTakesNoSlot | internal/controller/quota.go:47-52 | A run created strictly later than every run without a workload overtakes nobody and takes no slot. |
| QuotaProtocol.VerdictsAreWritten | internal/controller/quota.go:83-101 | A held run becomes Queued and waits on, a denied one Failed and leaves the queue; no other run and no other field changes. |
| QuotaProtocol.CreateKeepsSlotsIff | internal/controller/quota.go:47-52 | Creation keeps the slots of all runs without a workload exactly when it overtakes none that exactly fills the limit. |
| QuotaProtocol.OvertakingBreaksTheLimit | internal/controller/quota.go:47-73 | From every good state, a creation that overtakes a waiting run, or one marked Running without a workload, that exactly fills the limit can be continued to a state that exceeds it. |
| QuotaProtocol.CreationIsSafeIff | internal/controller/quota.go:47-73 | In every good state, all continuations of a creation keep the limit exactly when the new run overtakes nobody that exactly fills it. |
| QuotaFairness.OnlyEndingsMoveTheQueue | internal/controller/quota.go:47-73 | For a run without a slot, every step removes exactly the rival it ends; its distance drops by one then and never grows. |
| QuotaFairness.EnoughDeparturesGiveASlot | internal/controller/quota.go:47-73 | Over whole runs the distance falls by the number of departures, so enough departures give a slot that then lasts. |
| QuotaFairness.SameSecondCreationBreaksTheLimit | internal/controller/quota.go:47-52 | A concrete run with maximum one and two runs created in the same second that ends with two in flight. |
| Conditions.ConditionList.SetStatusCondition | internal/domain/status.go:162-173 | The in-place update replaces the first entry of the type, keeping its time when the status is unchanged, or appends. |
| Conditions.ConditionList.SetCondition | internal/domain/status.go:18-23 | A missing transition time becomes the current time before the entry is set. |
| Conditions.SetIsInPlace | internal/domain/status.go:162-173 | Setting moves no condition: the first of the type is replaced where it is, or one is appended when there is none. |
| Conditions.ConditionsRecordTheirCalls | internal/domain/status.go:18-23 | After any calls there is one entry per type set, with the last call's contents, dated at the start of the unbroken stretch of its status. |
| Conditions.MergeConditions | internal/kube/status.go:75-100 | The merging loops compute the fold that replaces or appends each desired condition. |
| Conditions.MergeIsInPlace | internal/kube/status.go:75-100 | Merging moves no stored condition; what is added comes behind and is of a type that was not stored. |
| Conditions.MergeFinds | internal/kube/status.go:75-100 | The writer's conditions win by type, every other stored condition survives, and no type doubles. |
| StatusStore.CopyStatus | internal/kube/status.go:56-73 | The writer's fields overwrite; conditions are merged over the stored ones. |
| StatusStore.UpdateStatusWithRetry | internal/kube/status.go:15-39 | With others writing at any moment: success means this status was laid over exactly what they left and the copy agrees with the store; conflicts, and only they, are retried, so that giving up on them takes five versions written by others; any other error is returned at once and, like a last conflict, leaves the copy as it was and stores nothing, unless the answer to an update was lost. |
| StatusStore.GivesUpAfterFiveConflicts | internal/kube/status.go:23-38 | In every interleaving, a writer that begins and ends its update without a success and without being stopped has seen the store move on by five versions: with fewer, it succeeds or is still trying. |
| StatusStore.WritesAreSerializable | internal/kube/status.go:15-39 | Any interleaving of any writers, with crashes, errors and lost answers, leaves the store as if the successful writes had happened one at a time. |
| StatusStore.LastWriterOfAKindWins | internal/kube/status.go:75-100 | The last successful write that named a condition type decides it; a type nobody named is as at the start. |
| StatusStore.SuccessfulWrite | internal/kube/status.go:15-39 | A successful write sets exactly the writer's types, keeps the others, and leaves the writer's copy agreeing with the store. |
| StatusStore.KindsAreNeverLost | internal/kube/status.go:75-100 | A condition type once stored stays stored in every later state. |
| BuildRunStatus.BuildRun.MarkBuildRunStarted | internal/domain/status.go:36-54 | Accepted exactly when the transition is permitted; then the whole status is the started one, otherwise unchanged. |
| BuildRunStatus.BuildRun.MarkBuildRunSucceeded | internal/domain/status.go:56-82 | The same for success, with conditions, completion time and image. |
| BuildRunStatus.BuildRun.MarkBuildRunFailed | internal/domain/status.go:84-112 | The same for failure, with reason and message. |
| BuildRunStatus.MarkLeaves | internal/domain/status.go:36-112 | Field by field what an accepted mark leaves: phase, times, image, failure, generation, and conditions dated now unless they said the same already. |
| BuildRunStatus.BuildRun.ValidatePhaseTransition | internal/domain/status.go:114-151 | The loop over the table of next phases accepts exactly staying and rising in rank, except cancelling a run that was never touched. |
| BuildRunStatus.WhereAPhaseMayGo | internal/domain/status.go:114-151 | For every phase the list of those it may become; nothing leaves a terminal phase. |
| BuildRunStatus.MarksStayCoherent | internal/domain/status.go:36-112 | Over any marks, Succeeded and Failed are never both True, and a terminal phase means Running is not True, a completion time, and no failure after success. |
| BuildRunStatus.MarksOnlyAdvance | internal/domain/status.go:114-151 | Over any marks a phase changes only by rising in rank, terminal phases stay, and the start time is written once. |
| BuildRunStatus.MarksKeepOtherConditions | internal/domain/status.go:36-112 | A mark touches only the conditions it is about. |
| YamlLaws.SetFailsIff | internal/gitops/provider.go:410-445 | A set fails exactly when the path runs through a non-mapping or ends at a non-scalar. |
| YamlLaws.SetThenLookup | internal/gitops/provider.go:410-445 | After a set the path holds the value as a string scalar. |
| YamlLaws.SetFrame | internal/gitops/provider.go:410-445 | A set touches no path that is neither above nor below its target. |
| YamlLaws.SetChangedIff | internal/gitops/provider.go:431-438 | The changed flag is false exactly when the tree is unchanged, that is, when the path held the value already. |
| YamlLaws.SetSet | internal/gitops/provider.go:410-445 | Of two sets of one path only the later counts. |
| YamlLaws.SetAppends | internal/gitops/provider.go:427-445 | A missing last key is added with its value as two string scalars at the end of its mapping. |
| YamlLaws.SetAddsMappings | internal/gitops/provider.go:416-426 | Mappings that a path needs and does not find are added with nothing in them but the rest of the path; those it finds stay. |
| YamlLaws.DeleteFailsIff | internal/gitops/provider.go:447-471 | A delete fails exactly when the path runs through a non-mapping. |
| YamlLaws.DeleteThenLookup | internal/gitops/provider.go:464-470 | After a delete nothing is found at the path exactly when the key occurred at most once. |
| YamlLaws.DeleteFrame | internal/gitops/provider.go:447-471 | A delete touches no path that is neither above nor below its target. |
| YamlLaws.DeleteChangedIff | internal/gitops/provider.go:464-470 | The changed flag is false exactly when the tree is unchanged, that is, when there was nothing at the path. |
| YamlLaws.DeleteKeepsTheWay | internal/gitops/provider.go:447-471 | A delete keeps every mapping on its way, also one that it leaves empty; only the last one loses a pair. |
| YamlHeap.MovedCells | internal/gitops/provider.go:410-445 | Exchanging one subtree in memory keeps all nodes unshared and changes no other part of the footprint. |
| YamlHeap.Refit | internal/gitops/provider.go:410-445 | When everything around a subtree still shows the tree, the whole memory shows the tree with the new subtree in its place. |
| YamlEdit.YamlMapValue | internal/gitops/provider.go:473-483 | The loop returns the node of the first value under the key, or nil exactly when there is none. |
| YamlEdit.AppendPair | internal/gitops/provider.go:418-421 | Appending two new nodes makes the memory show the mapping with that pair at its end. |
| YamlEdit.SetYamlLeaf | internal/gitops/provider.go:429-444 | The last segment: error, no change, overwrite or append, in place. |
| YamlEdit.SetYamlField | internal/gitops/provider.go:410-445 | The walking loop leaves the memory showing exactly the tree function's result, and as it was on an error; only the tree's own nodes are written. |
| YamlEdit.DeleteYamlLeaf | internal/gitops/provider.go:464-470 | The splice removes the first pair of the key and nothing else. |
| YamlEdit.DeleteYamlField | internal/gitops/provider.go:447-471 | The walking loop leaves the memory showing exactly the tree function's result. |
| FieldPath.YamlFieldParts | internal/gitops/provider.go:485-497 | The loop over the segments rejects the first blank one. |
| FieldPath.FieldPartsIff | internal/gitops/provider.go:485-497 | A field splits into given segments exactly when they are non-blank, free of dots, and join to the trimmed field. |
| FieldPath.FieldIsRefusedIff | internal/gitops/provider.go:485-497 | No field is found exactly in a blank text, and an empty segment exactly where some segment between dots is blank. |
| FieldPath.TrimTakesSpaces | internal/gitops/provider.go:486-491 | Trimming takes spaces at both ends and nothing else. |
| FieldPath.AsciiSpaces | internal/gitops/provider.go:486-491 | Of the ASCII characters, the spaces are tab to carriage return and the blank. |
| Helm.SettledIff | internal/gitops/provider.go:403-471 | An edit is a no-op exactly when the document already says what it asks for. |
| Helm.SettledPersists | internal/gitops/provider.go:352-401 | A settled edit stays settled through every other edit that does not conflict with it. |
| Helm.SecondRunIsNoOpIff | internal/gitops/provider.go:352-401 | Repeating a list of edits on its own result does nothing exactly when the edits are pairwise consistent. |
| Helm.UpdateIsItsEdits | internal/gitops/provider.go:352-401 | The update is its three edits in order when the fields are well-formed, and fails otherwise. |
| Helm.FieldsAreConfigured | internal/gitops/provider.go:352-366 | The fields are those that are configured, and otherwise image.repository, image.tag and image.digest. |
| Helm.UpdateFailsIff | internal/gitops/provider.go:352-401 | The update fails exactly if the document is no mapping, a field is malformed, or one of its edits fails. |
| Helm.HelmIsIdempotentIff | internal/gitops/provider.go:352-401 | The second Helm update reports no change exactly when the configured fields do not conflict. |
| Helm.UpdatedFileNamesTheImage | internal/gitops/provider.go:352-401 | After the update with compatible fields the file holds the release's repository, tag and digest, and no stale tag or digest. |
| Helm.ShowsIff | internal/gitops/provider.go:352-401 | After any successful edits a set value can be read exactly if, of the edits that touch its path, the last one sets it. |
| Helm.NamesImageIff | internal/gitops/provider.go:352-401 | After any successful update the file names the repository, tag and digest exactly if each set field has the last word about its path. |
| Helm.DefaultFieldsAreConsistent | internal/gitops/provider.go:364-366 | The default fields never conflict, for any image. |
| HelmSecondRun.SecondRunOf | internal/gitops/provider.go:352-401 | A set and two further edits run on their own result: it fails exactly when a deletion stands between two sets and one set lies inside the other, or the last above the deleted path; otherwise it ends in the same document. |
| HelmSecondRun.SecondUpdateIs | internal/gitops/provider.go:352-401 | From the fields and the image alone, for every document: a second Helm update is unchanged, fails, or reports a change that leaves the document as it was. |
| HelmSecondRun.SharedFieldNeverSettles | internal/gitops/provider.go:364-385 | With any one field configured for two different values, every run after the first succeeds, reports a change and makes none. |
| HelmBesideOthers.StaysFinal | internal/gitops/provider.go:352-401 | Unless the edits are restless, running them on any document in which their fields read as they left them fails or changes nothing, whatever else others changed. |
| HelmBesideOthers.RestlessMoves | internal/gitops/provider.go:403-471 | For all restless edits some document is changed by them although all their fields already read as they would leave them. |
| HelmBesideOthers.ConsistentIsNotRestless | internal/gitops/provider.go:364-401 | Fields that leave each other alone are never restless. |
| HelmBesideOthers.DigestAboveTheTag | internal/gitops/provider.go:364-401 | A concrete configuration and image for which the update of an empty file succeeds and the second update fails. |
| HelmFile.SetOrDeleteYamlField | internal/gitops/provider.go:403-408 | An empty value deletes, any other value sets, at the configured or default field, in place. |
| HelmFile.UpdateHelmValues | internal/gitops/provider.go:352-401 | The in-place update of the parsed document matches the tree function, errors included. |
| Kustomize.UpdateKustomization | internal/gitops/provider.go:511-571 | The loop over the images list computes the specified update and changed flag, errors included; when it fails and what the entry says afterwards are `Kustomize.UpdateFailsIff` and `Kustomize.EntrySays`. |
| Kustomize.RetargetItem | internal/gitops/provider.go:532-546 | The five edits of an entry yield the retargeted entry, and the collected flags say whether it changed. |
| Kustomize.UpdateFailsIff | internal/gitops/provider.go:511-553 | The update fails exactly if "images" is there and no list, or if a name is configured and no item of the list is a mapping of that name. |
| Kustomize.EntrySays | internal/gitops/provider.go:526-563 | After the update the entry says the name, the repository and either the digest or the tag or neither; its other keys are what they were. |
| Kustomize.SecondRunIsNoOp | internal/gitops/provider.go:511-571 | A second run changes nothing, whatever the file and the image. |
| Kustomize.ChangedIff | internal/gitops/provider.go:511-571 | The changed flag is false exactly when the file is unchanged. |
| Kustomize.StaysFinal | internal/gitops/provider.go:511-571 | On any file whose entry of the name is as an update left it, the update reports no change. |
| Kustomize.OnlyTheNamedEntryChanges | internal/gitops/provider.go:526-563 | Only the first entry of the name is touched, or, only without a configured name, one is appended; every other entry and key stays. |
| ImageRef.RepositoryRoundTripIff | internal/gitops/provider.go:810-819 | Reading the repository out of a written reference gives it back exactly for the stated references, registry ports included. |
| ImageRef.VersionReadsBack | internal/gitops/provider.go:856-865 | A reference begins with the repository and the version reads back: behind the first at sign stands the digest, without one behind the last colon the tag, and without either nothing stands behind the repository. |
| RawWorkload.EditedCandidates | internal/gitops/provider.go:762-781 | Editing one candidate's image keeps the list of candidate containers, but for that image. |
| RawWorkload.TrailOfIsLookup | internal/gitops/provider.go:783-792 | The position a path of keys is resolved to is the one at which the path reads. |
| RawWorkload.ChosenAgain | internal/gitops/provider.go:724-743 | After the selected containers got the image, a second selection finds the same ones exactly if chosen by name, alone, or with an image that reads back. |
| RawWorkload.UpdatedContainers | internal/gitops/provider.go:705-755 | The chosen containers get the image's reference, all others keep theirs, the workload stays the same workload, and the flag tells whether the document changed; `RawWorkload.ChosenSayTheVersion` says what the reference says. |
| RawWorkload.ChosenSayTheVersion | internal/gitops/provider.go:744-753 | After the update each chosen container's image says the release's digest, or without one its tag, and no other container's image has changed. |
| RawWorkload.OnlyChosenImagesChange | internal/gitops/provider.go:705-755 | Position by position: the document keeps its shape, the images of the chosen containers become string scalars with the reference, every other node is what it was. |
| RawWorkload.PodSpecIff | internal/gitops/provider.go:715-723 | Where the pod template of each kind must stand, and that it must be a mapping. |
| RawWorkload.AddressedIff | internal/gitops/provider.go:705-714 | A document is meant exactly if it is a mapping of one of the four kinds, with the kind and name that are asked for. |
| RawWorkload.CandidatesIff | internal/gitops/provider.go:762-781 | The candidates are exactly the entries of containers and initContainers that have a name and a scalar image. |
| RawWorkload.ChosenIff | internal/gitops/provider.go:724-743 | A candidate is chosen exactly for the configured name, or without one for its image's repository or for being the only candidate. |
| RawWorkload.UpdateRawFailsIff | internal/gitops/provider.go:594-613 | The update fails exactly if a meant document has no pod template, or if no document has a container to choose. |
| RawWorkload.SecondUpdate | internal/gitops/provider.go:705-755 | A second update never changes the document and matches exactly when the selection sticks. |
| RawWorkload.SecondRawRun | internal/gitops/provider.go:594-613 | Over all documents, the second run succeeds without change exactly if some document's selection sticks, and otherwise fails for want of a match. |
| RawWorkload.StaysFinal | internal/gitops/provider.go:594-613 | On any documents whose chosen containers are named and run as an update left them, the update fails or changes nothing. |
| RawWorkload.RematchesStays | internal/gitops/provider.go:594-613 | Whether a document will match again can be told before the update as well as after it. |
| RawWorkload.OrdinaryImagesSettle | internal/gitops/provider.go:594-613 | With a container name or an image that reads back, the second run is a no-op. |
| RawWorkload.SlashInTagLosesTheMatch | internal/gitops/provider.go:731-737 | A concrete Deployment with two containers that the first update changes and the second rejects for want of a match. |
| RawManifest.YamlNodeAt | internal/gitops/provider.go:783-792 | The loop over the keys arrives at the node the path leads to, or at nil exactly when it leads nowhere. |
| RawManifest.RawContainerCandidates | internal/gitops/provider.go:762-781 | The loops collect the name and image node of every container, main containers first. |
| RawManifest.SelectContainers | internal/gitops/provider.go:724-739 | The selection loops yield the nodes of the chosen containers. |
| RawManifest.WriteImages | internal/gitops/provider.go:744-753 | The loop writes the image into the selected nodes and nothing else; the flag tells whether any differed. |
| RawManifest.UpdateRawWorkloadNode | internal/gitops/provider.go:705-755 | The in-place update matches the tree function, errors included; what that leaves in each node is `RawWorkload.OnlyChosenImagesChange`. |
| ImageUpdate.UpdateIsFinal | internal/gitops/provider.go:262-281 | For every strategy, file and image, an update of its own result fails or leaves it as it is, whatever it reports. |
| ImageUpdate.UpToDateIff | internal/gitops/provider.go:262-281 | For each strategy, a second run succeeds without reporting a change exactly when the configuration and the image settle. |
| ImageUpdate.CarriesIff | internal/gitops/provider.go:262-281 | For each strategy, the updated repository carries the image exactly when the fields and the image, or for manifests the choice of containers, let it show. |
| ImageUpdate.UnchangedCarries | internal/gitops/provider.go:210-216 | An update that reports no change left the repository as it was, and it carries the release's image. |
| ReleaseReconciler.Reconciler.Reconcile | internal/controller/release_controller.go:62-200 | The step by step reconcile sends exactly the plan's requests, in order; what they lead to is stated by `ReleaseOutcomes`. |
| ReleaseReconciler.Reconciler.MarkFailed | internal/controller/release_controller.go:490-519 | One status write with the failed phase, or none when already marked so. |
| ReleaseReconciler.Reconciler.MarkPreparingGitOpsChange | internal/controller/release_controller.go:410-431 | The start time is set once; an already prepared release is not written again. |
| ReleaseReconciler.Reconciler.MarkDeployed | internal/controller/release_controller.go:466-488 | RolledBack when the release rolls back another, Deployed otherwise. |
| ReleaseReconciler.Reconciler.SyncPullRequestStatus | internal/controller/release_controller.go:269-297 | Makes sure of the pull request, reads it, stores what it read, and reports merged, closed, neither, or a failure. |
| ReleaseReconciler.Reconciler.SyncProviderStatus | internal/controller/release_controller.go:561-623 | Sends what the plan sends for the reply of the provider; `ReleaseOutcomes.TheDeploymentDecides` says for which replies the release succeeds, fails, or waits on. |
| ReleaseRuns.PlanIsSound | internal/controller/release_controller.go:62-200 | Cut short after any request, a reconcile leaves the release sane and has only moved it forward. |
| ReleaseRuns.TerminalIsNotActionable | internal/api/server.go:754-775 | The API's started and failed phases together cover every terminal phase, so a terminal release can be neither approved nor rejected. |
| ReleaseRuns.RunMovesForward | internal/api/server.go:637-752 | Over every run of cut reconciles, approvals and rejections the phase rank never falls, terminal statuses never change, the checkpoint is written once. |
| ReleaseRuns.SuccessIsJustified | internal/controller/release_controller.go:98-200 | Deployed or RolledBack implies a recorded, checkpointed commit, a start and a completion time, an allowed policy verdict, an approver if required, a merged pull request in that mode, and RolledBack exactly for rollbacks. |
| ReleaseRuns.ExpiredReconcile | internal/controller/release_controller.go:634-643 | A started release reconciled completely at or after its deadline sends one request and is terminal, TimedOut if nothing else is wrong. |
| ReleaseRuns.DeadlineEndsTheRelease | internal/controller/release_controller.go:108-111 | The same from every reachable state, because started implies approved where approval is required. |
| ReleaseRuns.TwoReconcilesDeploy | internal/controller/release_controller.go:112-200 | Wherever crashes have left a direct-commit release, two undisturbed reconciles deploy it. |
| ReleaseOutcomes.WhatStopsARelease | internal/controller/release_controller.go:77-111 | The reasons to stop a release, in order, each with the phase, reason and completion time it leads to; none of them touches the checkpoint. |
| ReleaseOutcomes.UpdatesExactlyWhenAllowed | internal/controller/release_controller.go:77-147 | The repository is updated exactly for a release that has not ended, is not rejected, has its build run and environment, is approved where required, allowed by the policy and in time, and whose commit is not known. |
| ReleaseOutcomes.RejectedStaysOut | internal/controller/release_controller.go:81-84 | Over every run, a rejected release stays rejected and is never promoted. |
| ReleaseOutcomes.WhatPrecedesTheUpdate | internal/controller/release_controller.go:410-431 | Before the update the release is marked as being prepared, with its start time, once for its generation. |
| ReleaseOutcomes.WhatTheUpdateLeadsTo | internal/controller/release_controller.go:117-167 | For every reply of the Git update: the failed phase and reason, with nothing recorded; or the checkpoint, the commit and the committed phase, with the pull request where there is to be one; every other field of the status is given. |
| ReleaseOutcomes.WhatAKnownCommitLeadsTo | internal/controller/release_controller.go:168-180 | A commit that is known but not yet recorded in the phase is recorded without another update. |
| ReleaseOutcomes.TheDeploymentDecides | internal/controller/release_controller.go:561-623 | From every release under way whose pull request, if it needs one, is read as merged: it succeeds exactly if healthy or with a generic provider, fails exactly if the status failed, or degraded under that policy, and otherwise waits; nothing else of the status changes. |
| ReleaseOutcomes.ThePullRequestDecides | internal/controller/release_controller.go:269-297 | Until it is merged: an unreadable pull request fails the release, a closed one fails its approval, an open one is waited for, with what was read stored. |
| ReleaseOutcomes.MovesAreObserved | internal/controller/release_controller.go:365-519 | Every status sent in another phase than the one that was read names the generation it is about. |
| ReleaseOutcomes.WaitsInSilence | internal/controller/release_controller.go:365-388 | A release that waits for its approval is written once; later reconciles that still find it waiting send nothing. |
| ReleaseOutcomes.FailuresAreWrittenOnce | internal/controller/release_controller.go:490-519 | A failure is not written again for the same generation and reason, and otherwise it is. |
| ReleaseOutcomes.OnlyWaitingReleasesAreActionable | internal/api/server.go:642-660 | A release can be approved or rejected exactly while it waits, was not rejected, and needs approval. |
| ReleaseOutcomes.ApprovalLetsThrough | internal/api/server.go:637-686 | An approved release passes exactly when everything else is in order; the approval changes nothing of its status. |
| ReleaseOutcomes.RejectionEndsTheRelease | internal/api/server.go:688-752 | A rejected release is failed, with reason, rejecter and time, by the API or, if that write was lost, by the next reconcile. |
| Checkpoint.PlanIsSafe | internal/controller/release_controller.go:112-167 | Every status a reconcile sends fits the checkpoint of its copy, or comes after the checkpoint write it relies on. |
| Checkpoint.CheckpointIsWrittenOnce | internal/controller/release_controller.go:533-559 | In every interleaving of reconciles on stale copies, crashes, refusals and API writes, a checkpoint once written stays, the status's commit is empty or the checkpoint, and no success is reported without a commit. |
| Checkpoint.TheCheckpointDecides | internal/controller/release_controller.go:533-559 | A reconcile whose commit is or becomes the checkpoint goes on; one with another commit ends and writes nothing more. |
| DirectCommit.PrefixCheckpoint | internal/controller/release_controller.go:149-155 | A checkpoint that a cut reconcile wrote is the commit its own update reported. |
| DirectCommit.EffectivelyOnce | internal/controller/release_controller.go:113-167 | However often the controller crashes, a release makes at most one content-changing push, when others leave what its update is about as it reads until the commit is recorded; for restless fields, when they change no content until then. |
| DirectCommit.AtMostOnceIff | internal/gitops/provider.go:195-231 | Over all starts and considerate histories there is at most one push exactly when the fields and the image are not restless. |
| DirectCommit.DigestBelowTheTagIsPushedTwice | internal/gitops/provider.go:364-401 | A concrete configuration with a digest below an empty tag has a considerate history with two content-changing pushes. |
| DirectCommit.RecordedCommitIsUpdated | internal/controller/release_controller.go:113-167 | Whatever others push, the recorded commit is one the update made; it is up to date exactly if the update settles, and it carries the release's image exactly if the image shows. |
| DirectCommit.CrashBeforeTheCheckpointFails | internal/gitops/provider.go:195-231 | Whenever the update fails on its own result, a crash after the push leads to a failed release with its change pushed and no commit recorded. |
| DirectCommit.DigestAboveTheTagFailsAfterThePush | internal/gitops/provider.go:195-231 | With a concrete configuration, release and repository a crash after the push ends in a failed release and no recorded commit. |
| Webhook.OneRunPerEvent | internal/api/server.go:926-1031 | In every interleaving with crashes an event has at most one BuildRun in a namespace; and unless two deliveries clash in their names, every BuildRun in a reply to a delivery to build is its own event's. |
| Webhook.RecordedOnce | internal/api/server.go:1001-1018 | Over every run at most one delivery creates a BuildRun or is told it did, BuildRuns and index entries stay as first written, and every delivery let through leaves an entry. |
| Webhook.RunsAreNotMistakenIff | internal/api/server.go:1001-1013 | Over all runs no delivery to build is answered with another event's BuildRun exactly when no two deliveries to build clash in their names. |
| Webhook.AnsweredMeansBuilt | internal/api/server.go:1052-1095 | When no names clash, and without an index or when no delivery hides another, every answered delivery of an event to build names the event's own BuildRun, which exists, also after a crash between creation and index write. |
| Webhook.HiddenDeliveryIsDropped | internal/api/server.go:1052-1071 | For every two deliveries of which one hides the other, by another namespace or by building nothing, among any others, there is a run that answers the hidden one as a duplicate and builds nothing for it. |
| Webhook.NobodyIsDroppedIff | internal/api/server.go:926-1095 | Over all runs every answered delivery to build has its own BuildRun exactly when no two deliveries clash in their names and there is no index or no delivery hides another. |
| Webhook.ProgramDropsNobodyIff | internal/api/server.go:1527-1557 | The same for the names the program gives, with the clash read off the repositories' names and the events' hashes. |
| Webhook.DashesAreNotTold | internal/api/server.go:1527-1557 | Repositories a-b and a--b in one namespace drop a delivery of equal events, whatever the hash, with an index or without. |
| DnsLabel.DnsLabel | internal/api/server.go:1540-1557 | The loop and the trim yield the words of the lower-cased name joined by single dashes. |
| DnsLabel.LabelIsDns | internal/api/server.go:1540-1557 | A label has only lower-case letters, digits and single inner dashes, is its own label, and is empty exactly when no character survives. |
| DnsLabel.LabelCharacters | internal/api/server.go:1540-1557 | Position by position: small letters and digits, and dashes only inside and never two together. |
| DnsLabel.WhatIsKept | internal/api/server.go:1540-1557 | Kept are letters and digits, and of the characters beyond ASCII the two that have a small letter among these. |
| DnsLabel.PlainLabel | internal/api/server.go:1540-1557 | Of a name of letters and digits the label is that name in small letters. |
| DnsLabel.NameSays | internal/api/server.go:1527-1538 | A name is the label, or "repository" without one, a dash and the hash, cut to sixty-three characters. |
| DnsLabel.NamesTellEventsApartIff | internal/api/server.go:1527-1538 | Different hashes of events of one repository give different names exactly when its label has at most fifty characters. |
| DnsLabel.OneNameIff | internal/api/server.go:1527-1538 | For any two repositories and hashes the names are one exactly when, without a cut, labels and hashes agree, and with a cut, what it leaves of them agrees. |
| DnsLabel.LabelsAgreeIff | internal/api/server.go:1540-1557 | Two names have one label exactly when they have the same words, whatever stands between them. |
| Listing.FilterSort | internal/api/pagination.go:109-151 | The filter loop and the sort compute the specified listing. |
| Listing.ListingIsSortedMatches | internal/api/pagination.go:109-187 | The listing is in order and holds every matching item as often as the source does, and no other. |
| Listing.ListingIsInOrder | internal/api/pagination.go:128-151 | In the items' own fields: by name, phase or creation time, ties by namespace and name, turned round for descending. |
| Listing.ListedIff | internal/api/pagination.go:109-127 | An item is listed exactly if it passes every filter that is given, the phase without regard to case and the times inclusively. |
| Listing.DescendingIsReversed | internal/api/pagination.go:128-151 | With unique keys the descending listing is the ascending one reversed, for every sort field. |
| Listing.WalkReturnsEverything | internal/api/pagination.go:93-107 | Following the tokens returns every item once, in order, in max(1, ceil(n / limit)) requests. |
| Listing.LookUp | internal/cli/app.go:474-490 | The CLI's loop over the pages terminates and finds the first item of the name exactly if there is one. |
| BoundedOutput.BoundedWriter.Write | internal/runner/artifacts.go:86-101 | A write fails exactly when there is room, something to write and the underlying writer fails; otherwise it reports its whole length; the output and the budget left are those of the calls so far. |
| BoundedOutput.WriteAll | internal/runner/artifacts.go:81-101 | For any writes and failures the output is as long as the reported data that fits the limit and what failing writes let through; without failures it is the first limit bytes of everything. |
| BoundedOutput.FirstFaultIsHarmless | internal/runner/artifacts.go:86-101 | Up to and with the first failing write, the output is a prefix of what was given and within the limit. |
| BoundedOutput.StaysWithinTheLimitIff | internal/runner/artifacts.go:86-101 | After any writes and failures, every later failure-free writing stays within a positive limit exactly when nothing got through in the failures. |
| BoundedOutput.CollectArtifacts | internal/runner/artifacts.go:23-79 | The nested loops hand over files up to the first failure, in order, with that failure. |
| BoundedOutput.WhatIsGiven | internal/runner/artifacts.go:46-72 | The files given to the store are the first ones up to the first that is unreadable, too large, over the budget or not stored, checked in that order, or up to the first pattern that fails. |
| BoundedOutput.CollectionSucceedsIff | internal/runner/artifacts.go:23-79 | On the steps themselves: it succeeds exactly if every pattern is usable and, unless optional, matches, every file is readable, in size and stored, and all fit the budget; then all are collected in order. |
| BoundedOutput.ReportedFailureIsTrue | internal/runner/artifacts.go:33-72 | The failure reported is one that the steps and their files show. |
| BoundedOutput.BudgetHolds | internal/runner/artifacts.go:55-60 | The store is never given more bytes than the budget, nor a file over the limit, whether the collection succeeds or not. |
| BoundedOutput.SucceedsIff | internal/runner/artifacts.go:23-79 | The collection succeeds exactly when no pattern fails, all files are readable, in size and stored, and all fit the budget. |

## Left out

- Kubernetes clients, HTTP routing, Git processes, SQL and files: they appear as stores, replies and request sequences.
- YAML and JSON text, base64 page tokens and SHA-256: assumed to be inverse codecs and a hash.
- BuildRun phases under concurrent stale writers: `copyStatus` is last-writer-wins for fields other than conditions, and `markReferenceError` bypasses the phase check, so phase monotonicity is claimed for the mark functions only.
- Crash retry in pull-request mode: the branch is rebuilt from its base, so the claim of one push is for direct commits.
- A reject that lands inside a running reconcile of the same release, other than as a status write in `Checkpoint`.
- Release conditions, events, metrics and notifications: of the conditions only the three facts that reconcile reads back are kept.
- Kustomize.UpdateKustomization: works on map values passed in and out; that the entries of the decoded list are shared with the document in memory is not modelled.
- HelmFile.UpdateHelmValues: promises nothing about the nodes in memory after an error, because the file is then not written.
- RawManifest.UpdateRawWorkloadNode: covers one document; the loops over documents and files are the functions of `RawWorkload`, and a file listed twice is not modelled.
- Listing.FilterSort: the stable sort is a library function and is specified by insertion; audit event listings are left out.
- DnsLabel.DnsLabel: lower-casing is modelled as far as it yields a kept character.
- Artifact names: `uniqueArtifactName` can repeat a name for inputs such as a, a, a-2.
- The API version conversions, generated copies, admission defaults, workload quota clamping, image tag resolution, authentication, secrets, caches, the web UI and the SDKs: straight-line, filesystem or security code.
