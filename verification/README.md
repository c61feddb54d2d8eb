# Verification of the Consul service operators

This project models, in Dafny, the parts of the Consul service that several parties share and that
must not go wrong together, and proves what they promise.

**Shared keys (ConsulKV).** Many ConsulKV resources declare keys in one Consul store; the `Flags` field
of a key counts its owners. A reconcile reads keys one at a time, computes new counters, commits
chunks of at most 64 compare-and-set operations with up to ten attempts, records ownership per key,
and later releases keys by decrementing or deleting. The model has two layers:

* `KvProtocol` is a step machine: any number of resources, each between two calls, other writers, edits,
  deletions and lost status writes, all interleaved. `KvSafety` proves its invariants over every run,
  `KvLimits` what it does not survive, and exactly when.
* `KvController`, `KvReconcile` and `KvPurge` are the loops of the controller over a client (`KvClient`)
  to which other clients may do anything between two calls. Every call is also a move of the machine,
  and `KvRefinement` proves that reconcilers running at once make a run of the machine, so that the
  invariants hold of the loops.

`ConsulStore` is the store with its transactions, `KvFlags` the counting rules and the proof that the
optimistic transactions are atomic, `KvStatus` the record of a resource and how records are merged.

**Shared ACL entities (ConsulACL).** Owner namespaces of explicitly named policies and roles are printed
into and parsed from the description text (`Strings`, `Owners`). `AclEntities` has the operations that
join, release and clean up, `AclRuns` the runs of many resources in many namespaces, `AclPrefix` the
generated names, `AclRules` the binding rules, `AclMigration` the removal of their legacy copies and
`AclStranding` two reconciles in which that goes wrong.

**Stale tokens and leader wait.** `RemoveTokens` selects the tokens of client pods to revoke, `LeaderWait` is
the bounded wait with backoff.

**Switchover.** `Switchover` has the choice of a backup and the demotion and promotion of one site,
`SwitchoverRuns` the calls on several sites over one bucket, interleaved step by step.

Calls that leave the program (Consul, Kubernetes, the backup daemon) are inputs: a script says which of
them fail and what happens in between. The contracts of the loops hold for every script.

`dafny verify dfyconfig.toml` checks all modules.

## What the code turned out not to promise

* A release skips a key it read as absent, without an index check. If the key is created before the commit
  it is not released (`KvFlags.ReleaseCoversAllKeysIff`, `KvFlags.ReleaseMissesLateKey`).
* A skipped duplicate entry hides the ownership of a removed key whose release failed
  (`KvStatus.MergeKeepsOwnershipIff`, `KvStatus.DuplicateHidesOwnership`).
* A status or finalizer write lost after a committed release makes a second release possible
  (`KvLimits.LostRecordSafeIff`), which can delete a key another resource holds (`KvLimits.SecondReleaseHappens`).
* An owned key that is absent is written again without being counted (`KvLimits.OwnedClaimUncountedIff`).
* A policy whose spec carries an ID is written without reading the existing one and drops its other owners
  (`Owners.UnreadOwnersSurviveIff`, `Owners.UnreadOwnerIsLost`); a role or policy whose spec carries the ID of
  another one takes it away (`AclEntities.StoredKeepsOwnersIff`, `AclEntities.ForeignIdTakesRole`).
* A binding rule whose spec carries the ID of another rule takes that rule, and the legacy copy of the other is
  then removed (`AclRules.NoRuleMovesIff`, `AclStranding.IdStranding`).
* With explicit names, the legacy copy of a binding rule is removed although its replacement failed
  (`AclMigration.ExplicitStrandsIff`, `AclStranding.ExplicitStranding`).
* Two operators in one namespace do not see each other's resources as siblings
  (`AclRuns.ApplyKeepsInUseIff`, `AclRuns.ReleaseKeepsInUseIff`, `AclRuns.SecondManagerBreaksInUse`).

## Assumptions

* One reconciler per ConsulKV resource, which starts from the status recorded last; a transaction that
  reports an error committed nothing; every write gives the pair a new ModifyIndex.
* External writers leave keys with Flags above 0 alone (the safety theorems; the contracts of the loops and
  the atomicity lemmas do not need it).
* ConsulACL reconciles run one at a time.
* An ID that a spec names was handed out by Consul before the reconcile, or never is; an update by an unknown
  ID, or to a name that is taken, fails.
* Kubernetes names hold neither underscore nor space (section 2.1 of RFC 1123).
* The backup daemon gives increasing, non-empty ids; a job it reports successful is a valid full backup that
  carries the region of its site; a finished backup stays in the bucket.

## Model

| member | source | states |
|---|---|---|
| `KvSafety.SafeOverEveryRun` | acl-configurator/consul-acl-configurator-operator/controllers/consulkv_controller.go:257-311 | Over every interleaving of any number of resources, their reads, transactions, status writes and edits, with other writers on uncounted keys, and with failures, retries and status writes lost before a release: the counter of every key is at least the number of resources that hold it |
| `KvSafety.EventPreservesSafe` | acl-configurator/consul-acl-configurator-operator/controllers/consulkv_controller.go:70-159 | Every single event of the system keeps that invariant |
| `KvSafety.HeldKeysArePresent` | acl-configurator/consul-acl-configurator-operator/controllers/consulkv_controller.go:251-256 | From any initial store, a key that some resource holds is present, with a counter at least the number of holders |
| `KvSafety.NoKeyDeletedWhileHeld` | acl-configurator/consul-acl-configurator-operator/controllers/consulkv_controller.go:389-438 | A step of a resource deletes a key only if no other resource holds it |
| `KvSafety.ForeignKeysStay` | acl-configurator/consul-acl-configurator-operator/controllers/consulkv_controller.go:278-279 | A key with Flags 0 is neither deleted nor counted by any step of any resource |
| `KvSafety.StepsAreAtomic` | acl-configurator/consul-acl-configurator-operator/controllers/consulkv_controller.go:294-304 | A committed chunk has the effect of the claim or release rule on the store of the commit instant for all its keys at once; every other step leaves the store alone |
| `KvSafety.StepKeepsValues` | acl-configurator/consul-acl-configurator-operator/controllers/consulkv_controller.go:410-418 | After a step of a resource a key holds the value it had or the one of the entry just committed: a release changes no value |
| `KvSafety.ValuesOverEveryRun` | acl-configurator/consul-acl-configurator-operator/controllers/consulkv_controller.go:251-418 | Over every run, what a key holds at the end it held at the start, or a resource committed an entry with that value, or an external writer put it there |
| `KvSafety.ExactOverEveryRun` | acl-configurator/consul-acl-configurator-operator/controllers/consulkv_controller.go:94-147 | If no record is lost and none hides the ownership of an unreleased key, the counter of every key equals the number of its holders in every reachable state, whatever chunks fail and are retried: each resource counts once, and is taken off once |
| `KvSafety.RecordExactIff` | acl-configurator/consul-acl-configurator-operator/controllers/consulkv_controller.go:325-336 | Writing a record keeps the counters exact if and only if the first entry of every unreleased dropped key carries its ownership |
| `KvSafety.DistinctKeysAreFaithful` | acl-configurator/consul-acl-configurator-operator/controllers/consulkv_controller.go:190-207 | Specs without repeated keys always meet that condition, whatever is edited, created and deleted |
| `KvSafety.RecordedOwnersAreCounted` | acl-configurator/consul-acl-configurator-operator/controllers/consulkv_controller.go:129-147 | From a store nobody counts in, whenever no reconcile is under way, the counter of a key is the number of resources whose recorded status owns it |
| `KvSafety.LastReleaseDeletes` | acl-configurator/consul-acl-configurator-operator/controllers/consulkv_controller.go:402-408 | The key goes away in the very step in which its last holder lets go of it |
| `KvLimits.LostRecordSafeIff` | acl-configurator/consul-acl-configurator-operator/controllers/consulkv_controller.go:115-118 | Losing the status or finalizer write is safe if and only if the reconcile has not released a key yet |
| `KvLimits.SecondReleaseDeletes` | acl-configurator/consul-acl-configurator-operator/controllers/consulkv_controller.go:95-118 | What a lost finalizer write can do, for all states: the resource releases its key again and deletes it from under its last holder |
| `KvLimits.SecondReleaseHappens` | acl-configurator/consul-acl-configurator-operator/controllers/consulkv_controller.go:95-118 | A whole run from the empty store in which this happens |
| `KvLimits.LostRecordExactIff` | acl-configurator/consul-acl-configurator-operator/controllers/consulkv_controller.go:138-151 | Losing it keeps the counters exact if and only if the reconcile changed nothing in what the resource holds |
| `KvLimits.ExternalSafeIff` | acl-configurator/consul-acl-configurator-operator/controllers/consulkv_controller.go:251-256 | An external write is safe if and only if the counter it leaves covers the holders of the key |
| `KvLimits.OwnedClaimUncountedIff` | acl-configurator/consul-acl-configurator-operator/controllers/consulkv_controller.go:276-277 | A resource that writes a key it owned before leaves it uncounted, though held, if and only if the key was absent or uncounted |
| `KvProtocol.ClaimCommitBalances` | acl-configurator/consul-acl-configurator-operator/controllers/consulkv_controller.go:294-303 | A committed claim moves the counter of each key by exactly the claim it adds to the resource |
| `KvProtocol.ReleaseCommitBalances` | acl-configurator/consul-acl-configurator-operator/controllers/consulkv_controller.go:425-431 | A committed release moves the counter of each key by exactly the claim the resource gives up |
| `KvProtocol.RecordKeeps` | acl-configurator/consul-acl-configurator-operator/controllers/consulkv_controller.go:138-147 | Recording never claims more than the resource holds, and exactly that if and only if no repeated key hides the ownership of an unreleased dropped key |
| `KvProtocol.TenAttempts` | acl-configurator/consul-acl-configurator-operator/controllers/consulkv_controller.go:258-310 | A chunk that is rejected again and again is tried ten times, no more and no less, and then ends with an error and what was reached before |
| `KvRefinement.ReconcilersRun` | acl-configurator/consul-acl-configurator-operator/controllers/consulkv_controller.go:70-159 | Any number of imperative reconcilers at once, each noticing the transactions of the others between its own calls, while resources are created, edited and deleted, make a run of the step machine and end where it ends |
| `KvRefinement.ReconcilersAreSafe` | acl-configurator/consul-acl-configurator-operator/controllers/consulkv_controller.go:70-159 | From a safe state these reconcilers agree on one store in which every key is counted at least once for each resource that holds it |
| `KvRefinement.ReconcilersAreExact` | acl-configurator/consul-acl-configurator-operator/controllers/consulkv_controller.go:94-147 | And exactly once for each if no record is lost and none hides ownership |
| `ConsulStore.EqualIndexMeansUnchanged` | acl-configurator/consul-acl-configurator-operator/controllers/consulacl_controller_test.go:806-819 | With a fresh index on every write, the index of a read pair is current if and only if the pair is |
| `ConsulStore.WriteAllPointwise` | acl-configurator/consul-acl-configurator-operator/controllers/consulacl_controller_test.go:821-842 | A transaction without repeated keys does to each key what its operation says and nothing to the others |
| `ConsulStore.CommitIsLater` | acl-configurator/consul-acl-configurator-operator/controllers/consulacl_controller_test.go:821-842 | An accepted transaction leaves untouched every pair it does not give a newer index |
| `KvFlags.ClaimAcceptedIffCurrent` | acl-configurator/consul-acl-configurator-operator/controllers/consulkv_controller.go:285-298 | The claiming transaction is accepted if and only if every read it was built from still holds |
| `KvFlags.ClaimTxnIsAtomic` | acl-configurator/consul-acl-configurator-operator/controllers/consulkv_controller.go:251-304 | An accepted chunk equals the four-case Flags rule applied at the commit instant to all its keys, and the ownership computed from the reads is the one decided at that instant |
| `KvFlags.ClaimMeans` | acl-configurator/consul-acl-configurator-operator/controllers/consulkv_controller.go:251-292 | What a chunk leaves: the value of each entry, ownership unless the key was there uncounted, one more count for a new owner only, other keys untouched |
| `KvFlags.ReleaseTxnIsAtomic` | acl-configurator/consul-acl-configurator-operator/controllers/consulkv_controller.go:386-431 | An accepted release equals decrement-or-delete applied at the commit instant to all the keys that were found |
| `KvFlags.ReleaseMeans` | acl-configurator/consul-acl-configurator-operator/controllers/consulkv_controller.go:386-419 | A release takes one owner from each key, deletes it with its last one and leaves every value as it was |
| `KvFlags.ReleaseCoversAllKeysIff` | acl-configurator/consul-acl-configurator-operator/controllers/consulkv_controller.go:399-401 | The release of a chunk covers all its keys if and only if the keys read as absent are still absent at the commit |
| `KvFlags.ReleaseMissesLateKey` | acl-configurator/consul-acl-configurator-operator/controllers/consulkv_controller.go:399-401 | A concrete store in which a key created after it was read as absent is not released |
| `KvClient.Client.Get` | acl-configurator/consul-acl-configurator-operator/controllers/consulkv_controller.go:265-272 | A read answers from the store of its instant, fails only when the call fails, and is the read the step machine makes next |
| `KvClient.Client.Txn` | acl-configurator/consul-acl-configurator-operator/controllers/consulacl_controller_test.go:789-843 | All or nothing: an accepted transaction is one atomic step at some instant after the reads, a rejected or failed one changes nothing |
| `KvController.PlanClaims` | acl-configurator/consul-acl-configurator-operator/controllers/consulkv_controller.go:262-292 | The first pass reads every key and builds the operations the Flags rule gives for those reads |
| `KvController.WriteKVChunk` | acl-configurator/consul-acl-configurator-operator/controllers/consulkv_controller.go:257-311 | Within ten attempts the chunk takes effect as one atomic claim with the ownership decided at that instant, or an error is returned and nothing was written |
| `KvController.WriteKVBatchWithOwnership` | acl-configurator/consul-acl-configurator-operator/controllers/consulkv_controller.go:240-249 | The committed keys are exactly a prefix of whole chunks, all of them if and only if no error is returned; the map holds exactly what those chunks decided |
| `KvController.ChunksCover` | acl-configurator/consul-acl-configurator-operator/controllers/consulkv_controller.go:242-248 | The chunks partition the entries in order, 64 in each but the last |
| `KvController.Chunk` | acl-configurator/consul-acl-configurator-operator/controllers/consulkv_controller.go:48-51 | A chunk has at most 64 operations |
| `KvController.ApplyIsFold` | acl-configurator/consul-acl-configurator-operator/controllers/consulkv_controller.go:187-209 | Writing the last entries chunk by chunk leaves the values of a left-to-right fold over the whole spec |
| `KvController.ApplyKVEntries` | acl-configurator/consul-acl-configurator-operator/controllers/consulkv_controller.go:187-235 | Writes the last entry of every non-empty key and reports index by index: an entry reads synced, with or without ownership, if and only if it is the last of a committed key; without interference leaves the fold of the spec |
| `KvController.PlanReleases` | acl-configurator/consul-acl-configurator-operator/controllers/consulkv_controller.go:393-419 | Reads every key and builds delete or decrement for those found; a skipped key was absent at that instant |
| `KvController.DeleteKVChunk` | acl-configurator/consul-acl-configurator-operator/controllers/consulkv_controller.go:389-438 | Within ten attempts each listed key that is present loses one owner, all in one atomic step that changes no value, or an error is returned and nothing was written |
| `KvController.DeleteKVBatch` | acl-configurator/consul-acl-configurator-operator/controllers/consulkv_controller.go:372-384 | The returned set holds exactly the keys of the chunks released before an error, each released once; without interference every key loses one owner, goes with its last one, and no value changes |
| `KvStatus.WinnersAreLastEntries` | acl-configurator/consul-acl-configurator-operator/controllers/consulkv_controller.go:190-207 | Exactly the last entry of each non-empty key is written; the keys are pairwise distinct |
| `KvStatus.WinnersInOrder` | acl-configurator/consul-acl-configurator-operator/controllers/consulkv_controller.go:204-207 | They are written in spec order |
| `KvStatus.ReportsEach` | acl-configurator/consul-acl-configurator-operator/controllers/consulkv_controller.go:198-234 | What the report says of each entry: synced, not owned, skipped, empty or error, and whether it is owned |
| `KvStatus.OwnedAfterApply` | acl-configurator/consul-acl-configurator-operator/controllers/consulkv_controller.go:211-234 | What the report owns: a committed key as decided, an uncommitted key as before |
| `KvStatus.OwnedStatusKeysAre` | acl-configurator/consul-acl-configurator-operator/controllers/consulkv_controller.go:349-360 | The distinct non-empty keys recorded as owned |
| `KvStatus.OwnedKeysInOrder` | acl-configurator/consul-acl-configurator-operator/controllers/consulkv_controller.go:349-360 | In the order of the record |
| `KvStatus.KeysToDropAre` | acl-configurator/consul-acl-configurator-operator/controllers/consulkv_controller.go:477-490 | Exactly the owned keys that the spec no longer has |
| `KvStatus.MarkReleasedOwned` | acl-configurator/consul-acl-configurator-operator/controllers/consulkv_controller.go:492-503 | Ownership is taken from exactly the released keys, no entry is lost |
| `KvStatus.MergeCovers` | acl-configurator/consul-acl-configurator-operator/controllers/consulkv_controller.go:313-347 | The merge covers exactly the keys of both inputs, in order of first appearance, old keys first |
| `KvStatus.MergeContiguous` | acl-configurator/consul-acl-configurator-operator/controllers/consulkv_controller.go:313-347 | All entries of a key stand together |
| `KvStatus.MergeGroup` | acl-configurator/consul-acl-configurator-operator/controllers/consulkv_controller.go:325-344 | The entries of each key are all the new ones, in order, or one that reads removed and stays owned if the first old entry was and the key was not released |
| `KvStatus.MergeKeepsOrder` | acl-configurator/consul-acl-configurator-operator/controllers/consulkv_controller.go:313-315 | The order of the existing keys is kept |
| `KvStatus.MergeIdempotent` | acl-configurator/consul-acl-configurator-operator/controllers/consulkv_controller.go:313-347 | Merging the result again with the same update and cleaned keys changes nothing |
| `KvStatus.MergeOwned` | acl-configurator/consul-acl-configurator-operator/controllers/consulkv_controller.go:330-335 | What the merged record owns, key by key |
| `KvStatus.MergeKeepsOwnershipIff` | acl-configurator/consul-acl-configurator-operator/controllers/consulkv_controller.go:332-335 | Unreleased removed keys stay owned if and only if the first existing entry of each carries the ownership |
| `KvStatus.DuplicateHidesOwnership` | acl-configurator/consul-acl-configurator-operator/controllers/consulkv_controller.go:202-203 | A concrete record in which a skipped duplicate hides the ownership of a key whose release failed |
| `KvReconcile.CollectOwnedKeys` | acl-configurator/consul-acl-configurator-operator/controllers/consulkv_controller.go:350-360 | The loop with its seen set computes the distinct owned keys in order |
| `KvReconcile.DeleteRemovedEntries` | acl-configurator/consul-acl-configurator-operator/controllers/consulkv_controller.go:477-490 | Releases the owned keys the spec dropped, chunk by chunk |
| `KvReconcile.MarkAsReleased` | acl-configurator/consul-acl-configurator-operator/controllers/consulkv_controller.go:493-503 | The loop computes the record in which the released keys are not owned |
| `KvReconcile.MergeKVStatuses` | acl-configurator/consul-acl-configurator-operator/controllers/consulkv_controller.go:316-347 | The two loops with their maps compute the merge |
| `KvReconcile.KvResource.Apply` | acl-configurator/consul-acl-configurator-operator/controllers/consulkv_controller.go:123-147 | A reconcile claims a prefix of the chunks, releases a prefix of the dropped keys and records both; it claims to be in sync only if everything was written, released and recorded; it is a sequence of moves of the step machine |
| `KvReconcile.SynchronizedValues` | acl-configurator/consul-acl-configurator-operator/controllers/consulkv_controller.go:123-147 | After an undisturbed reconcile every declared key holds the value of its last entry, no other value changed and only dropped keys can be gone |
| `KvReconcile.KvResource.Finalize` | acl-configurator/consul-acl-configurator-operator/controllers/consulkv_controller.go:95-118 | Deletion releases a prefix of the owned keys, lets the resource go only when all are released and otherwise records which were; undisturbed, every owned key loses one owner and no value changes |
| `KvReconcile.KvResource.Reconcile` | acl-configurator/consul-acl-configurator-operator/controllers/consulkv_controller.go:70-159 | Nothing is written before the finalizer is in place and nothing once it is gone; the resource moves as the step machine does |
| `KvPurge.Admin.DeleteKVTree` | acl-configurator/consul-acl-configurator-operator/controllers/consulkv_controller.go:444-472 | A successful purge removes exactly the declared keys and the keys below them, whatever the order and repetition; on errors nothing else is removed |
| `KvPurge.WithoutIs` | acl-configurator/consul-acl-configurator-operator/controllers/consulkv_controller.go:440-443 | Gone are exactly the declared keys, what follows them after a slash, and whatever begins with a declared key that ends in a slash |
| `KvPurge.Admin.PurgeKey` | acl-configurator/consul-acl-configurator-operator/controllers/consulkv_controller.go:457-469 | The directory of one key, with and without a trailing slash |
| `KvPurge.SiblingDirectorySurvives` | acl-configurator/consul-acl-configurator-operator/controllers/consulkv_controller.go:442-443 | A key that only shares the characters of a declared key is not in its directory |
| `Owners.ParsedIsWellFormed` | acl-configurator/consul-acl-configurator-operator/controllers/consulacl_controller.go:828-841 | Whatever the text, the parsed owners are well formed and the base is right-trimmed |
| `Owners.ParseMeans` | acl-configurator/consul-acl-configurator-operator/controllers/consulacl_controller.go:828-841 | For every text: the base is the text, or what stands before the last marker, without blanks and line ends at its end; no marker means no owners; otherwise the owners are exactly what stands between the commas after the last marker, trimmed |
| `Owners.TextIsUnique` | acl-configurator/consul-acl-configurator-operator/controllers/consulacl_controller.go:829-833 | That determines the base |
| `Strings.CleanSplitIs` | acl-configurator/consul-acl-configurator-operator/controllers/consulacl_controller.go:835-839 | Splitting and cleaning gives exactly the non-empty trimmed parts between commas |
| `Owners.ParseBuild` | acl-configurator/consul-acl-configurator-operator/controllers/consulacl_controller.go:828-854 | Parsing what was printed gives back the base and the owners, sorted |
| `Owners.AddThenParse` | acl-configurator/consul-acl-configurator-operator/controllers/consulacl_controller.go:880-889 | For any spec text, any existing description and any well-formed namespace: the text of the spec and the sorted existing owners plus the namespace once |
| `Owners.RemoveThenParse` | acl-configurator/consul-acl-configurator-operator/controllers/consulacl_controller.go:856-867 | The removal is last if and only if no other owner remains; otherwise the text and exactly the other owners are kept |
| `Owners.OwnersAfter` | acl-configurator/consul-acl-configurator-operator/controllers/consulacl_controller.go:858-889 | Membership of every owner after an addition and after a non-final removal |
| `Owners.FirstApply` | acl-configurator/consul-acl-configurator-operator/controllers/consulacl_controller.go:843-889 | The printed text of a first apply, character by character |
| `Owners.SecondApply` | acl-configurator/consul-acl-configurator-operator/controllers/consulacl_controller.go:843-889 | The printed text with two owners, whichever came first |
| `Owners.RunRefines` | acl-configurator/consul-acl-configurator-operator/controllers/consulacl_controller.go:858-889 | Over every run of additions and non-final removals the description means the abstract owner collection |
| `Owners.UnreadOwnersSurviveIff` | acl-configurator/consul-acl-configurator-operator/controllers/consulacl_controller.go:915-928 | A policy written without reading the existing one keeps its owners if and only if it has none but the writer |
| `Owners.UnreadOwnerIsLost` | acl-configurator/consul-acl-configurator-operator/controllers/consulacl_controller.go:915-928 | A concrete description whose owner is lost in this way |
| `Strings.SortedIsUnique` | acl-configurator/consul-acl-configurator-operator/controllers/consulacl_controller.go:848-849 | A sorted owner list is unique, so any sorting algorithm prints the same text |
| `Strings.LeqIsLexicographic` | acl-configurator/consul-acl-configurator-operator/controllers/consulacl_controller.go:848-849 | The order is that of the first difference, a prefix coming first |
| `AclEntities.WriteMeans` | acl-configurator/consul-acl-configurator-operator/controllers/consulacl_controller.go:892-898 | The description written by an apply adds the namespace to the owners and has the text of the spec |
| `AclEntities.ReleaseMeans` | acl-configurator/consul-acl-configurator-operator/controllers/consulacl_controller.go:338-375 | What a release writes or deletes: the namespace alone is taken from the owners, the entity goes if and only if no other is left |
| `AclEntities.Api.ProcessEntity` | acl-configurator/consul-acl-configurator-operator/controllers/consulacl_controller.go:911-946 | A declared entity is written, by the ID in its spec or by its name with the owners it had plus the namespace, or nothing changes |
| `AclEntities.StoredKeepsOwnersIff` | acl-configurator/consul-acl-configurator-operator/controllers/consulacl_controller.go:911-936 | Writing a spec keeps every owner of every entity if and only if its ID is harmless: none, that of the entity it names (for a policy, which is not read, with no other owner), or that of an entity without owners |
| `AclEntities.ForeignIdTakesRole` | acl-configurator/consul-acl-configurator-operator/controllers/consulacl_controller.go:1009-1024 | A concrete spec whose ID takes a role away from its owner |
| `AclEntities.Api.ProcessEntities` | acl-configurator/consul-acl-configurator-operator/controllers/consulacl_controller.go:900-949 | The table entry by entry for any spec; without IDs, all declared entities are written as their last spec says, the failed ones are as they were, all others are untouched |
| `AclEntities.Api.ReleaseEntity` | acl-configurator/consul-acl-configurator-operator/controllers/consulacl_controller.go:338-375 | Takes the namespace from the owners, or deletes the entity with its last owner |
| `AclEntities.Api.DeleteEntities` | acl-configurator/consul-acl-configurator-operator/controllers/consulacl_controller.go:475-522 | Releases exactly the declared entities that no sibling declares |
| `AclEntities.Api.RemoveStaleExplicit` | acl-configurator/consul-acl-configurator-operator/controllers/consulacl_controller.go:763-822 | When it succeeds exactly the stale entities were left by the namespace; on errors only some of them; all others are unchanged |
| `AclEntities.LeaveTwice` | acl-configurator/consul-acl-configurator-operator/controllers/consulacl_controller.go:475-498 | Releasing a repeated name twice is releasing it once |
| `AclRuns.SiblingEntities` | acl-configurator/consul-acl-configurator-operator/controllers/consulacl_controller.go:224-253 | A name is protected if and only if another resource of the namespace, under the same operator and not being deleted, declares it or can not be read |
| `AclRuns.SiblingsAre` | acl-configurator/consul-acl-configurator-operator/controllers/consulacl_controller.go:224-253 | The same of the sibling sets of the run machine, for policies and roles |
| `AclRuns.InUseOverEveryRun` | acl-configurator/consul-acl-configurator-operator/controllers/consulacl_controller.go:224-298 | Over every run in many namespaces, each under one operator, with applies and deletions that may fail half-way, each role or policy in use by a live resource exists with its namespace among the owners |
| `AclRuns.WrittenStaysOwned` | acl-configurator/consul-acl-configurator-operator/controllers/consulacl_controller.go:224-298 | Over every such run, what an apply has written exists and belongs to the namespace for as long as its resource is not deleted and goes on declaring it |
| `AclRuns.InUseOverConsiderateRuns` | acl-configurator/consul-acl-configurator-operator/controllers/consulacl_controller.go:224-298 | The same over every run in which each apply protects and each release spares what the other resources of its namespace have in use, under any operators |
| `AclRuns.ApplyKeepsInUseIff` | acl-configurator/consul-acl-configurator-operator/controllers/consulacl_controller.go:232-253 | The applies of a resource keep everything in use if and only if it declares, or sees a sibling declare, whatever another live resource of its namespace has in use |
| `AclRuns.ReleaseKeepsInUseIff` | acl-configurator/consul-acl-configurator-operator/controllers/consulacl_controller.go:255-298 | The releases of a deleted resource keep everything in use if and only if whatever it declares and another live resource of its namespace has in use is seen declared by a sibling |
| `AclRuns.OneManagerProtects` | acl-configurator/consul-acl-configurator-operator/controllers/consulacl_controller.go:232-253 | One operator per namespace meets both conditions |
| `AclRuns.EventKeepsInUse` | acl-configurator/consul-acl-configurator-operator/controllers/consulacl_controller.go:618-655 | Every apply, release, edit, creation and deletion keeps that invariant |
| `AclRuns.SiblingsProtect` | acl-configurator/consul-acl-configurator-operator/controllers/consulacl_controller.go:554-600 | What a live sibling has in use is never released |
| `AclRuns.AppliedIsInUse` | acl-configurator/consul-acl-configurator-operator/controllers/consulacl_controller.go:618-655 | After an apply without failed writes everything the resource declares is in use |
| `AclRuns.CleanedLeavesOnlyDeclared` | acl-configurator/consul-acl-configurator-operator/controllers/consulacl_controller.go:763-822 | After a successful clean-up the namespace owns only what the resource or a sibling declares; everything it did not own is unchanged; only its own ownership is taken |
| `AclRuns.UnparsableSiblingReleasesNothing` | acl-configurator/consul-acl-configurator-operator/controllers/consulacl_controller.go:240-250 | A sibling with an unparsable configuration only makes releases rarer: nothing is released |
| `AclRuns.ApplyAcl` | acl-configurator/consul-acl-configurator-operator/controllers/consulacl_controller.go:618-655 | An apply, wherever it stops, has the effect of an apply step on policies and roles |
| `AclRuns.ReconcileApply` | acl-configurator/consul-acl-configurator-operator/controllers/consulacl_controller.go:618-655 | Listing the siblings and applying is one apply step of a run; if it succeeds the namespace owns only what the resource or a live one beside it declares; without failures it succeeds |
| `AclRuns.DeleteAcl` | acl-configurator/consul-acl-configurator-operator/controllers/consulacl_controller.go:282-300 | A deletion, wherever it stops, has the effect of a release step on policies and roles |
| `AclRuns.ReconcileDelete` | acl-configurator/consul-acl-configurator-operator/controllers/consulacl_controller.go:255-298 | Listing the siblings, releasing and removing the finalizer is one release step of a run; a resource that is gone has left everything it declared but what a live one beside it declares |
| `AclRuns.SecondManagerBreaksInUse` | acl-configurator/consul-acl-configurator-operator/controllers/consulacl_controller.go:220-230 | A concrete step in which an operator deletes a role in use by a resource of another operator in the same namespace |
| `AclPrefix.PrefixUnambiguous` | acl-configurator/consul-acl-configurator-operator/controllers/consulacl_controller.go:524-534 | A generated name carries the prefix of a resource if and only if it was generated for it |
| `AclPrefix.ConvertInjective` | acl-configurator/consul-acl-configurator-operator/controllers/consulacl_controller.go:524-527 | Distinct entities of a resource get distinct names |
| `AclPrefix.RemoveStalePrefixed` | acl-configurator/consul-acl-configurator-operator/controllers/consulacl_controller.go:699-742 | Deletes exactly the entities under the own prefix that are not declared; on errors only some of them |
| `AclPrefix.StalePrefixedFrame` | acl-configurator/consul-acl-configurator-operator/controllers/consulacl_controller.go:699-742 | Under the own prefix only declared names are left, and nothing generated for another resource was touched |
| `AclMigration.RemoveStaleRules` | acl-configurator/consul-acl-configurator-operator/controllers/consulacl_controller.go:675-697 | Deletes exactly the undeclared rules of the own prefix under the methods of the spec |
| `AclMigration.StaleRulesFrame` | acl-configurator/consul-acl-configurator-operator/controllers/consulacl_controller.go:675-697 | Under those methods only declared names are left with the own prefix; no rule of another resource was touched |
| `AclRules.RuleApi.WriteRule` | acl-configurator/consul-acl-configurator-operator/controllers/consulacl_controller.go:1100-1130 | Updates the rule of the name and method, else the one whose ID the spec names, else creates one; an unknown ID or a failure changes nothing |
| `AclRules.PutMeans` | acl-configurator/consul-acl-configurator-operator/controllers/consulacl_controller.go:1086-1122 | The rule stands under the method the spec names, or the global one, with its name, type role and the text of the spec; a rule of that name keeps its owners and gets the namespace, any other is owned by the namespace alone |
| `AclRules.PutInPlaceIff` | acl-configurator/consul-acl-configurator-operator/controllers/consulacl_controller.go:1106-1122 | A write gives a rule another name or method, or takes an owner from it, if and only if the spec names the ID of a rule while there is none of its own name and method |
| `AclRules.NoRuleMovesIff` | acl-configurator/consul-acl-configurator-operator/controllers/consulacl_controller.go:1077-1134 | Whatever entries are written, no rule is moved, if and only if no entry of the spec does that |
| `AclRules.SafeIdsKeep` | acl-configurator/consul-acl-configurator-operator/controllers/consulacl_controller.go:1077-1134 | Then nothing is lost, only rules of written entries are new or changed, and every written entry stands under the method it names, or the global one, with the namespace among its owners |
| `AclRules.ProcessRule` | acl-configurator/consul-acl-configurator-operator/controllers/consulacl_controller.go:1081-1131 | One entry: lookup, list, write and report |
| `AclRules.ProcessBindRules` | acl-configurator/consul-acl-configurator-operator/controllers/consulacl_controller.go:1077-1134 | The rules entry by entry, for explicit and generated names; of the generated names exactly those of entries that were not written are reported as failed |
| `AclRules.GeneratedIsNoStatusKey` | acl-configurator/consul-acl-configurator-operator/controllers/consulacl_controller.go:1123-1130 | Reporting a success never hides the failure of a generated name |
| `AclMigration.RemoveLegacyBindingRules` | acl-configurator/consul-acl-configurator-operator/controllers/consulacl_controller.go:406-448 | Removes exactly the selected rules under the legacy methods that exist; on errors only some of them |
| `AclMigration.MigrationStrandsNobody` | acl-configurator/consul-acl-configurator-operator/controllers/consulacl_controller.go:377-448 | With generated names and safe IDs, a removed legacy rule belongs to the resource, is not declared for that method, and every replacement the spec declares was written in the same reconcile and stands under the method the spec names |
| `AclMigration.MigrationSpares` | acl-configurator/consul-acl-configurator-operator/controllers/consulacl_controller.go:406-448 | Rules of other resources, rules declared for the legacy method and rules of another type are never removed |
| `AclMigration.MigrationRemoves` | acl-configurator/consul-acl-configurator-operator/controllers/consulacl_controller.go:406-448 | A complete removal leaves, under a legacy method that exists, no role rule with the prefix of the resource but those whose replacement failed and, in an apply, the declared ones |
| `AclMigration.ApplyBindRules` | acl-configurator/consul-acl-configurator-operator/controllers/consulacl_controller.go:636-644 | Applying and migrating, for explicit and generated names: if every read and deletion succeeds, all legacy rules are removed unless a write fails for a transient reason, and then none is; with generated names and safe IDs a rule disappears only if its declared replacements are present |
| `AclMigration.ExplicitStrandsIff` | acl-configurator/consul-acl-configurator-operator/controllers/consulacl_controller.go:406-448 | With explicit names some pattern of failing writes strands an entry if and only if it is exposed: a legacy copy not declared for its method, no rule of its own yet, and no entry called like the copy that is sure to fail |
| `AclStranding.ExplicitStranding` | acl-configurator/consul-acl-configurator-operator/controllers/consulacl_controller.go:406-448 | A reconcile, call by call, that removes the legacy copy of an explicit rule whose write failed |
| `AclStranding.IdStranding` | acl-configurator/consul-acl-configurator-operator/controllers/consulacl_controller.go:1107-1121 | A reconcile without failures in which an entry with the ID of another rule takes that rule, and the legacy copy of the other is removed |
| `RemoveTokens.PodKeyIsLastPart` | remove-tokens/remove-tokens.go:49-52 | The pod name is what follows the last slash |
| `RemoveTokens.GroupTokensByPod` | remove-tokens/remove-tokens.go:256-267 | Exactly the client tokens, grouped by pod, in order |
| `RemoveTokens.PickOfPod` | remove-tokens/remove-tokens.go:272-288 | A live pod keeps one token of maximal creation time, a dead one none, whatever the sort does with ties |
| `RemoveTokens.PickTokensToDelete` | remove-tokens/remove-tokens.go:269-291 | For every iteration order: no id twice, only client tokens, every pod settled |
| `RemoveTokens.PickedMeans` | remove-tokens/remove-tokens.go:256-291 | Spelled out: only tokens of component client with a pod; all of a pod that is not live; all but one, the newest, of a live one |
| `RemoveTokens.NonClientsStay` | remove-tokens/remove-tokens.go:256-267 | A token without a structured description, of another component or without a pod is never selected |
| `RemoveTokens.SecondRunSelectsNothing` | remove-tokens/remove-tokens.go:256-291 | A second run on the survivors selects nothing |
| `LeaderWait.WaitForLeader` | remove-tokens/remove-tokens.go:180-199 | Pauses of min(5*2^n, 30) seconds, none ending after 180 seconds, at most 8 polls, for any poll durations; gives up only when the next pause would end too late |
| `LeaderWait.NextDelay` | remove-tokens/remove-tokens.go:193-197 | Doubling and capping step by step gives the capped power of two |
| `Switchover.LastFullBackupIsGreatest` | disaster-recovery/clients/backup_daemon_client.go:136-153 | Whatever order the daemon lists in: the greatest id that is a valid full backup with variables and of another region, all above it read and dismissed; none if all are dismissed; an error if one that can not be read comes first |
| `Switchover.LastFullBackupIff` | disaster-recovery/clients/backup_daemon_client.go:136-153 | Both directions: found if and only if listed, of another region and all above dismissed; none if and only if all are dismissed |
| `Switchover.GetLastFullBackup` | disaster-recovery/clients/backup_daemon_client.go:136-153 | The descending loop with its early returns computes that; what it returns is a valid full backup of another region |
| `Switchover.FoundIsNotOlder` | disaster-recovery/clients/backup_daemon_client.go:136-153 | With a usable backup in the bucket, a search that reports no error finds a usable one started no earlier, although backups come and finish meanwhile |
| `Switchover.PerformBackup` | disaster-recovery/clients/backup_daemon_client.go:155-167 | The first job the daemon starts, or an error if it starts none in time |
| `Switchover.CheckBackupStatus` | disaster-recovery/clients/backup_daemon_client.go:169-184 | True if and only if some poll reports success |
| `Switchover.CheckRestoreStatus` | disaster-recovery/clients/backup_daemon_client.go:228-243 | True if and only if some poll reports success or an unknown job |
| `Switchover.Site.RestoreLastFullBackup` | disaster-recovery/clients/backup_daemon_client.go:186-215 | Only the last attempt ended the wait; every attempt asked for the last full backup it found; without noWait the job is that of a request |
| `Switchover.EndedMeansAccepted` | disaster-recovery/clients/backup_daemon_client.go:194-209 | Without noWait the last request names the backup found last and the daemon took it |
| `Switchover.Site.ScaleDaemon` | disaster-recovery/clients/kubernetes_client.go:103-119 | Replicas change unless the update fails, whether or not the pods get ready |
| `Switchover.Site.StartLastBackupRecovery` | disaster-recovery/main.go:172-193 | Success means that a restore was asked for and completed and the servers are ready, or that there was no job to wait for |
| `Switchover.Site.Demote` | disaster-recovery/main.go:129-152 | The daemon is scaled down only right after a backup known to be good; DONE if and only if each call it needs succeeds |
| `Switchover.Site.Promote` | disaster-recovery/main.go:114-128 | Scaled up, then every attempt asks for the last full backup it found; DONE if and only if the wait ended and the job it reported was completed |
| `Switchover.Site.DrFunction` | disaster-recovery/main.go:95-170 | The guard, the three modes and all early exits: what was done, in which order, and exactly when the answer is DONE |
| `Switchover.QuietCall` | disaster-recovery/main.go:95-101 | Nothing is touched when nothing is pending, the servers are not ready, a site configured as disabled is to stand by, or the mode is unknown |
| `Switchover.DemotionAnswers` | disaster-recovery/main.go:129-152 | DONE if and only if the scale was read and, if the daemon runs, a backup was started, reported successful and the daemon went down |
| `Switchover.DisablingAnswers` | disaster-recovery/main.go:153-159 | DONE if and only if the daemon was scaled down; no backup is made |
| `Switchover.PromotionAnswers` | disaster-recovery/main.go:114-128 | DONE if and only if the daemon came up and, unless the site was disabled, some attempt ended the wait and its job completed |
| `Switchover.DonePromotion` | disaster-recovery/main.go:114-128 | A DONE promotion, not from disabled and without noWait, ended with a request for the backup found last that the daemon took and whose job completed |
| `SwitchoverRuns.CallsRun` | disaster-recovery/main.go:95-193 | Calls of drFunction on several sites, interleaved step by step with truthful daemons, make a run in which no site goes down without a saved backup unless it is disabled |
| `SwitchoverRuns.SwitchoverDoesNotRollBack` | disaster-recovery/main.go:95-193 | Over every such interleaving: after a DONE demotion of one site, a DONE promotion of another (not from disabled, without noWait) last asked for a valid full backup whose region is not that of the site, started no earlier than the backup of the demotion, which was reported successful; the daemon took the request and its job completed |
| `SwitchoverRuns.NoRollback` | disaster-recovery/clients/backup_daemon_client.go:186-215 | Every restore request of a run names a valid full backup of another region started no earlier than any backup another site has handed over with |
| `SwitchoverRuns.ClosedOnlyAfterBackup` | disaster-recovery/main.go:135-151 | Over every such interleaving: when a site that is not being disabled goes down, its last step was to finish a backup, which is in the bucket |
| `SwitchoverRuns.SitesConform` | disaster-recovery/main.go:95-170 | The histories of sites on which drFunction was called any number of times are histories of these theorems |

## Left out

- HTTP, TLS, Kubernetes and Consul client code, environment, secrets and logging: calls are inputs that succeed or fail.
- JSON parsing of ACL configurations and token descriptions: a configuration is given parsed or as unparsable.
- 64-bit overflow of the Flags counter: counters are unbounded.
- General status, conditions and ManagedBy of a resource, requeue intervals and the text of wrapped errors.
- KvReconcile.KvResource.Reconcile: models resources without purgeOnDelete; the purge is KvPurge, without other writers between its calls.
- KvSafety.SafeOverEveryRun: excludes external writes to counted keys; KvLimits.ExternalSafeIff says which of them are safe.
- AclRuns.InUseOverEveryRun: covers specs without IDs; AclEntities.StoredKeepsOwnersIff says what an ID does.
- AclRuns.ApplyAcl: covers explicitly named policies and roles; of the binding rules only whether they were applied enters, their clean-up and release for explicit names are not part of the runs.
- AclRuns.DeleteAcl: covers policies and roles; the release of binding rules before them is not part of it.
- Revocation of the tokens of a deleted role, policy links of roles, selectors of binding rules.
- Interleaved ConsulACL reconciles: their writes carry no index check, so nothing of this kind holds for them.
- Creation of auth methods, issuer detection and OpenID URLs.
- isOwnedByOperator and the cache filter: only the single-reconciler assumption is used.
- Retries and batching of token deletion requests after the selection.
- Switchover.Site.DrFunction: takes the configuration map as parsed values; the mode constants belong to the disaster recovery daemon library, which is not part of this model, so their documented values are used.
- Eviction of old backups, the manual REST endpoint, backup and restore scripts, Helm charts and integration tests.
