# Verified models of the inference proxy's protocols

The inference proxy routes chat requests to GPU nodes that register themselves in
etcd, provisions those nodes over SSH, and hands out API tokens. This project models
the parts of it that are protocols rather than plumbing, and proves what they are
relied on for. `dafny verify dfyconfig.toml` checks everything.

| component | files |
|---|---|
| Revision-aware discovery: watcher, registry, drain sweep | `Registry`, `EtcdHistory`, `Discovery`, `DiscoveryTheorems`, `DiscoveryRuns`, `HiddenDeletes`, `LocalStatus`, `NodeLife`, `Watcher` |
| etcd adapter, lease adoption, placement suspensions | `PrefixRange`, `EtcdStore`, `Leases`, `Suspensions` |
| Crash-safe generation switching and publication | `Generations`, `GenerationTheorems`, `GenerationRoot`, `Publication` |
| Token store | `TokenTable`, `ConfigKeys`, `TokenRuns`, `TokenRaces`, `TokenWorkers`, `AuthStore` |
| Node recorder: framing, raw tail, host lock | `Utf8`, `Framing`, `FramingTheorems`, `FramingChunks`, `EngineTail`, `HostLock` |
| Prompt rewriting | `SystemMessages`, `SystemMessageTheorems`, `SystemMessageTexts` |
| GGUF family index and library closure | `GgufPaths`, `GgufFamilies`, `GgufIndex`, `GgufListing`, `LibraryClosure` |
| Failover and connection reservations | `Failover`, `Reservations` |

Each protocol is a state machine whose runs are arbitrary sequences of steps; the
main theorems are about every run. Code that updates things in place is a class or a
method with loops, proved against the functions that the theorems are about.

## What is taken for granted

- etcd: a range read is linearizable; a watch stream delivers events from its start
  revision on, and a batch header is a progress guarantee (every event at or below it
  has been delivered); each key's revisions strictly increase; a transaction's outcome
  is reported. That a batch lists its events in revision order is used only for entries
  whose newest value cannot be read. A failure while applying a batch falls
  between two events; one during a reconciliation comes before the registry takes the
  snapshot or after it.
- SHA-256 and HMAC are injective: digests, token hashes and derived values are
  constructors. Random values do not repeat unless the model says so.
- A write, rename, link or unlink is atomic and durable; a crash falls between two.
- The registry lock, the store lock, the publication lock and the activation lock make
  each of their critical sections one step, or one program that nothing interleaves with.
- Processes of a worker's command that go on mutating the host keep the lock descriptor
  they inherited: a child that is started with all descriptors closed, and mutates the
  host after its parents have exited, is outside the model.
- The selector of the failover loops never returns an excluded node. Backends, clocks
  and selectors are otherwise arbitrary.

## What the models bring to light

- A malformed newest value hides a delete below it exactly when a snapshot jumped over the
  delete; one that arrives on the stream is always applied first (`DeleteHiddenIff`,
  `MalformedValueHidesDelete`).
- Activating the generation that is selected already does not record it as `previous`; a
  rollback after that goes to the generation before (`ReactivationLosesSelection`).
- With several workers on one database, the next request under the same secret returns the
  key just minted if and only if no config row of that user was committed between the
  history read and the INSERT. Otherwise it revokes that key and returns another
  (`RacingMintIsStableIff`, `RaceRotatesKey`).
- The comment at inference_proxy/auth/store.py:700-702 says recovery never fails. Among
  workers of this version that is so, in every interleaving and on every database
  (`RaisesOnlyIfOvertaken`); it can fail only over a derived key that a worker from before
  the marker commits between the read and the INSERT (`RaisingTakesForeignRow`,
  `ForeignRowMakesRecoveryRaise`).
- A request itself can raise, with workers of this version alone, on a database that still
  holds a generated key without the marker: the UPDATE that marks it is outside any `try`,
  and hits the one-active index when another call has minted a marked key since the read
  (`LegacyKeyMakesRequestRaise`). `RequestRaisesIff` is the exact condition.
- Framing makes progress exactly for limits of at least 1 and keeps characters whole
  exactly for limits of at least 4; settings demand at least 16. Chunking adds one empty
  record for each boundary right behind a full record whose newline comes next, and
  changes nothing else (`SameRecordsIff`).
- Removing a node's connection count while requests are on it, as the provisioner's
  cleanup may, is the one thing that makes counts inexact (`CountsExactIff`).
- The duplicate-shard branch of `_revision_specs` cannot be taken: two paths that parse
  to the same part are the same path.

## Model

| member | source | states |
|---|---|---|
| `DiscoveryRuns.RegistryReflectsEtcd` | inference_proxy/discovery/watcher.py:61-154 | in every state of every run (commits, snapshots, batches, mid-batch failures with replay, timeouts, compactions, local liveness changes, drain sweeps) that has reconciled a snapshot, each node entry shows the newest event of its key at or below max(resume revision, its gate): a put gives exactly its etcd-owned fields, a delete gives DRAINING or absent; where the newest value cannot be read, it shows the event applied last, and only events that a snapshot jumped over are missing from it |
| `DiscoveryRuns.CaughtUpMirrorsEtcd` | inference_proxy/discovery/watcher.py:94-117 | a watcher whose resume point is the present revision mirrors the cluster on every key; behind an unreadable value it shows the last effective event, if that lies above the last snapshot |
| `HiddenDeletes.DeleteHiddenIff` | inference_proxy/discovery/watcher.py:198-240 | a delete that is the last effective word on its key is missing from the entry if and only if a snapshot with an unreadable value jumped over it, from a frontier below the delete to a revision at or above it; and the entry is up if and only if moreover it was left up before |
| `HiddenDeletes.MissingWasJumped` | inference_proxy/discovery/watcher.py:243-273 | an event behind the frontier of its key that was never applied was jumped over by such a snapshot: whatever arrives on the stream is applied when the frontier passes it |
| `HiddenDeletes.JumpedIsHidden` | inference_proxy/discovery/watcher.py:198-240 | what was jumped over is never applied later, replays included; only a newer event supersedes it |
| `DiscoveryTheorems.ReconcileRaisesKeeps` | inference_proxy/discovery/watcher.py:231-240 | a reconciliation that raises after the registry took the snapshot keeps the invariant, although the watcher holds no resume point |
| `DiscoveryRuns.StepApplied` | inference_proxy/discovery/watcher.py:61-154 | every step keeps the entry showing the event applied last, with nothing but jumped-over events missing |
| `DiscoveryTheorems.DeletedStaysDown` | inference_proxy/discovery/watcher.py:243-273 | once an entry shows a delete, it is up again only if the history holds a put of that key with a higher revision: no replayed event revives it |
| `DiscoveryTheorems.MalformedValueHidesDelete` | inference_proxy/discovery/watcher.py:198-240 | counterexample: a malformed newest value leaves a stale HEALTHY entry standing although the key was deleted in between |
| `DiscoveryTheorems.ReconcileKeeps` | inference_proxy/discovery/watcher.py:198-240 | reconciling a faithful snapshot keeps the invariant and moves every key to exactly the snapshot revision, never back |
| `DiscoveryTheorems.ApplyEventKeeps` | inference_proxy/discovery/watcher.py:243-319 | applying one event behind its gate keeps the invariant and never moves a key back, also when the event is a replay |
| `DiscoveryTheorems.FinishBatchKeeps` | inference_proxy/discovery/watcher.py:112-114 | advancing the resume point to the header revision is sound because every event at or below it is behind its gate |
| `DiscoveryTheorems.StepKeeps` | inference_proxy/discovery/watcher.py:61-154 | every step of the cluster, the watcher, the health checker and the sweep keeps the invariant |
| `DiscoveryTheorems.SeedLookup` | inference_proxy/discovery/watcher.py:211-229 | the gates and nodes that a snapshot seeds are, per id, those of the one record with that key |
| `EtcdHistory.NodeIdInverse` | inference_proxy/discovery/watcher.py:322-339 | a key yields an id exactly when it is the prefix followed by that non-empty id |
| `Watcher.EtcdWatcher.ReconcileSnapshot` | inference_proxy/discovery/watcher.py:198-240 | the loop over records leaves the registry and the gates that the snapshot calls for: record revisions for present keys, tombstones at the snapshot revision for missing ones |
| `Watcher.EtcdWatcher.ApplyOne` | inference_proxy/discovery/watcher.py:276-319 | an event at or below its gate or outside the prefix changes nothing; any other takes effect once; either way it is behind its gate afterwards and no gate went down |
| `Watcher.EtcdWatcher.ApplyBatch` | inference_proxy/discovery/watcher.py:243-273 | whole or cut short by an exception, a batch leaves registry and gates in agreement with the cluster, with every event before the exception behind its gate |
| `Watcher.EtcdWatcher.FollowStream` | inference_proxy/discovery/watcher.py:94-117 | the resume point passes every batch that was applied whole and no other, and every event before one that raised is behind its gate; neither the resume point nor a gate ever goes back |
| `Watcher.EtcdWatcher.RunTurn` | inference_proxy/discovery/watcher.py:61-154 | a turn gets as far as its stream did, never back, and every entry then reflects the cluster as it has become; when the last header is the present revision the registry mirrors the cluster; a compaction alone clears the resume point |
| `LocalStatus.LocalDecisionHolds` | inference_proxy/discovery/registry.py:98-137 | in every run, once the health checker has set a node status every later state shows exactly that status, through any number of snapshots and puts with probed statuses, until another local decision on the node, a stored lifecycle status, or the end of its key |
| `LocalStatus.ValueTaken` | inference_proxy/discovery/registry.py:98-116 | a readable value gives the entry its fields, and its status unless both statuses are probed; a new entry or one whose status is not probed takes the stored status exactly |
| `LocalStatus.NothingTaken` | inference_proxy/discovery/watcher.py:198-319 | a key that a snapshot or event neither brings nor withdraws keeps its entry |
| `NodeLife.ANodeComesAndGoes` | inference_proxy/discovery/watcher.py:61-154 | the run in which a node registers, is found unhealthy, unregisters and is swept away shows exactly that in the registry after each of these, with the watcher caught up |
| `NodeLife.LosesPlace` | inference_proxy/discovery/watcher.py:134-144 | a compaction makes the watcher ask again, with the registry as it is |
| `DiscoveryTheorems.KnownNodesAreGated` | inference_proxy/discovery/watcher.py:235-240 | after a reconciliation no event at or below the snapshot gets through for a node the registry knows, a late delete included |
| `Registry.NodeRegistry.AddDiscovered` | inference_proxy/discovery/registry.py:98-116 | HEALTHY, UNHEALTHY or UNKNOWN survives a stored status of these three; in every other case the entry is the stored value; no other entry changes |
| `Registry.NodeRegistry.ReconcileDiscovered` | inference_proxy/discovery/registry.py:118-137 | found nodes are merged, nodes absent from the snapshot become DRAINING and are reported as missing, all others keep their entry |
| `Registry.NodeRegistry.UpdateStatus` | inference_proxy/discovery/registry.py:161-181 | the status changes exactly when the present one is allowed, and nothing else changes |
| `Registry.NodeRegistry.Drain` | inference_proxy/discovery/registry.py:183-196 | a present entry becomes DRAINING, no entry is added or removed |
| `Registry.SweepDrainedNodes` | inference_proxy/routing/drain_cleanup.py:14-33 | exactly the DRAINING entries without connections are removed, from the registry and from the counts |
| `PrefixRange.PrefixRangeEnd` | inference_proxy/discovery/etcd_client.py:139-146 | for every key: it starts with the prefix exactly when it is at least the prefix and below the range end; the unbounded end is returned exactly for all-0xFF prefixes |
| `PrefixRange.BelowSuccessor` | inference_proxy/discovery/etcd_client.py:139-146 | the order-theoretic law behind the range end, by induction over both byte strings |
| `EtcdStore.EtcdClient.GetSnapshot` | inference_proxy/discovery/etcd_client.py:368-405 | the range read returns the keys under the prefix, all of them and no others, at the store revision |
| `EtcdStore.EtcdClient.Revoke` | inference_proxy/discovery/etcd_client.py:436-438 | revoking a lease deletes exactly the keys that carry it, and nothing when none does |
| `EtcdStore.EtcdClient.Replace` | inference_proxy/discovery/etcd_client.py:488-530 | compare-and-swap on the modification revision, zero meaning absent; the returned revision is the one written |
| `EtcdStore.EtcdClient.DeleteRevision` | inference_proxy/discovery/etcd_client.py:532-549 | the key is deleted exactly when its revision is the expected one |
| `Leases.AdoptionIsExact` | inference_proxy/discovery/node_leases.py:132-178 | in every reachable state an adoption changes no value and no other key, and attaches exactly when the store still holds the very value, revision and missing lease that was observed |
| `Leases.OneWinnerPerRevision` | inference_proxy/discovery/node_leases.py:132-178 | over every run of any number of managers, at most one adoption wins a revision of a key |
| `Leases.UnusedLeaseRevokesNothing` | inference_proxy/discovery/node_leases.py:166-173 | a lease revoked as unused is attached to nothing: the revocation leaves the whole store unchanged |
| `Leases.WonAdoptionIsRecorded` | inference_proxy/discovery/node_leases.py:175-178 | a won adoption is recorded by its manager unless something newer was observed, and no other metadata changes |
| `Leases.AttachedLeaseRevokesKey` | inference_proxy/discovery/node_leases.py:156-173 | why the outcome must be known: revoking after an unreported success would delete the registration |
| `Leases.MatchedIsCurrent` | inference_proxy/discovery/node_leases.py:147-155 | the compare succeeds exactly on the observed registration |
| `Leases.StepKeeps` | inference_proxy/discovery/node_leases.py:46-187 | every step of observers, writers, expiry and adoption keeps metadata truthful and granted leases private |
| `Leases.NodeLeaseManager.ObservePut` | inference_proxy/discovery/node_leases.py:55-68 | a put is recorded unless a newer observation is held |
| `Leases.NodeLeaseManager.ObserveDelete` | inference_proxy/discovery/node_leases.py:70-75 | a delete removes the metadata unless it is newer |
| `Leases.NodeLeaseManager.MaintainAfterSuccess` | inference_proxy/discovery/node_leases.py:82-100 | adoption exactly for a managed, healthy node with a snapshot and a leaseless observation; refresh exactly when it has a lease |
| `Leases.NodeLeaseManager.Adopt` | inference_proxy/discovery/node_leases.py:132-178 | with a lease granted for it, adoption attaches exactly to the observed value, revision and missing lease; no value changes, no other key changes, and a refusal leaves the store as if nothing happened, revocation included; metadata follows only over the unchanged observation |
| `Leases.NodeLeaseManager.Refresh` | inference_proxy/discovery/node_leases.py:102-130 | only an expired lease drops metadata, and only the metadata it was read from |
| `Leases.NodeLeaseManager.Maintain` | inference_proxy/discovery/node_leases.py:82-100 | it adopts exactly when the registration is still the leaseless one it observed, and forgets exactly an observation whose lease expired; no value is written, no key removed, and nothing else changes |
| `Suspensions.SuspensionHolds` | inference_proxy/placement/suspensions.py:29-61 | in every interleaving, a suspension confirmed at revision r is present until a resume that itself read r or later, after the confirmation, removes it |
| `Suspensions.CallsHaveReads` | inference_proxy/placement/suspensions.py:47-61 | every call in flight made its read in the run, or was in flight at its start |
| `Suspensions.UndisturbedCalls` | inference_proxy/placement/suspensions.py:29-61 | a suspend that nobody disturbs leaves the key present at the next revision, a resume leaves it absent |
| `Suspensions.Suspend` | inference_proxy/placement/suspensions.py:29-45 | undisturbed, a suspend writes the suspension over whatever was there and confirms the revision it wrote |
| `Suspensions.Resume` | inference_proxy/placement/suspensions.py:47-61 | undisturbed, a resume leaves no suspension and succeeds also when there is none |
| `GenerationTheorems.SelectedIsPublished` | common/generations.py:303-367 | over every run of activations and rollbacks, each stopped between any two file operations, with bundles and runtimes damaged and repaired in between, `current` names a fully published generation that passed its evidence check |
| `GenerationTheorems.SelectionKeepsWayBack` | common/generations.py:354-360 | no file operation of any such run moves `current` away from X unless `previous` already names X |
| `GenerationTheorems.InterruptedRollbackExchangesOnce` | common/generations.py:273-300 | a rollback stopped after its journal and resumed and stopped any number of times by rollbacks and activations exchanges current and previous exactly once, in the call that gets past the journal |
| `GenerationTheorems.ActivationAfterRollback` | common/generations.py:303-367 | an activation that finds a journal finishes the exchange and selects its own generation on top of it, with the right way back |
| `GenerationTheorems.RetriedActivationRollsBack` | common/generations.py:303-367 | an activation stopped and retried any number of times until it completes, and then rolled back, returns to the generation selected before it (or that an outstanding rollback was about to select) if and only if it selected another one, or both links agreed; otherwise it goes on to the older `previous` |
| `GenerationTheorems.ReactivationLosesSelection` | common/generations.py:349-360 | the failing case: activating the selected generation again and rolling back leaves the node on the older generation |
| `GenerationTheorems.CallStep` | common/generations.py:273-367 | one call, stopped anywhere, keeps the invariant, and one more operation never loses the way back |
| `GenerationTheorems.LinkForm` | common/generations.py:214-219 | what `atomic_link` has done after any number of its operations: the link is the old one or the new one, nothing between |
| `GenerationTheorems.FinishForm` | common/generations.py:273-284 | what `finish_rollback` has done after any number of its operations, from any point where an earlier one stopped |
| `GenerationTheorems.ActivateForm` | common/generations.py:303-367 | what `activate` has done after any number of its operations |
| `GenerationRoot.Root.AtomicLink` | common/generations.py:214-219 | the code performs exactly the modelled operations, stopping where the budget does |
| `GenerationRoot.Root.CheckEvidence` | common/generations.py:222-243 | a generation passes exactly when its directory is what its digest says and its bundle and runtime still verify |
| `GenerationRoot.Root.Rollback` | common/generations.py:287-300 | a completed call exchanges the links, or finishes the journaled exchange; a stopped one keeps the invariant |
| `GenerationRoot.Root.FinishRollback` | common/generations.py:273-284 | the journaled exchange, operation by operation |
| `GenerationRoot.Root.StageGeneration` | common/generations.py:335-347 | staging builds the directory privately and publishes it with one rename |
| `GenerationRoot.Root.Activate` | common/generations.py:303-367 | a completed call has selected its generation with the replaced one as `previous`; a stopped one keeps the invariant |
| `Publication.CompletedPublicationVerifies` | common/generations.py:72-118 | for any number of publishers and kills, a completed publication leaves a destination that verifies, unless it was damaged after the publisher last checked |
| `Publication.VerifyingDestinationStays` | common/generations.py:93-117 | no step of any publisher replaces or changes a destination that verifies |
| `Publication.NothingPublishedIsLost` | common/generations.py:105-118 | whatever ever stood under the name still does or is in quarantine, and its directory still exists |
| `Publication.RetryConverges` | common/generations.py:72-118 | whatever killed publishers left behind, a new one goes through and leaves a destination that verifies: the one that stood if it verified, with the unneeded copy removed, and its own otherwise |
| `Publication.Site.Publish` | common/generations.py:91-118 | from anything a killed publisher left, one publication ends with a verifying destination; damage goes to a fresh quarantine slot, an intact destination stays and the staged copy goes |
| `TokenRuns.OneActiveKey` | inference_proxy/auth/store.py:576-782 | after every run of requests under changing secrets, revocations and created tokens, a user has at most one unrevoked marked config key |
| `TokenRuns.RequestResolves` | inference_proxy/auth/store.py:576-693 | after every run a request returns, and its value resolves to an unrevoked marked row of that user |
| `TokenRuns.RepeatedRequestsAgree` | inference_proxy/auth/store.py:608-634 | requests under one secret return one value through any run that does not end the key |
| `TokenRuns.RevokedIsDead` | inference_proxy/auth/store.py:797-843 | a value whose row is revoked never resolves and is never returned again, in any run |
| `TokenRuns.RevokedInRunIsDead` | inference_proxy/auth/store.py:797-843 | after any run that contains a successful revocation of a row, its value does not resolve and no request returns it |
| `TokenRuns.UnmarkedRowsUntouched` | inference_proxy/auth/store.py:648-670 | a request leaves every unmarked row alone that does not carry the value derived for its own position |
| `TokenRuns.OwnTokenSurvives` | inference_proxy/auth/store.py:648-670 | a token the user made, whatever its name, is unchanged by any run in which no step is meant for it |
| `TokenRuns.LostRaceMeansInterference` | inference_proxy/auth/store.py:671-704 | an INSERT hits a constraint only when another worker committed after the read |
| `TokenRuns.RecoverySettles` | inference_proxy/auth/store.py:694-778 | an undisturbed turn of the recovery loop never loses again; it raises exactly when the value to reuse sits in an unmarked row while another marked key is live, and otherwise returns a serving value |
| `TokenWorkers.RaisesOnlyIfOvertaken` | inference_proxy/auth/store.py:576-778 | in every interleaving of any number of workers, from any table that meets the indexes, keys from before the marker included: recovery never raises; a request raises if and only if the history it read has no active key but an unmarked one to reuse, which is still unmarked and live while a marked key has become live; from a table without unmarked derived values nothing raises; and a user has at most one live marked key |
| `TokenWorkers.RequestRaisesIff` | inference_proxy/auth/store.py:648-670 | the exact condition for one request, over any table read and any table written to |
| `TokenWorkers.RecoverRaisesIff` | inference_proxy/auth/store.py:723-739 | the exact condition for one turn of recovery |
| `TokenWorkers.LegacyKeyMakesRequestRaise` | inference_proxy/auth/store.py:648-670 | counterexample among workers of this version: a key from before the marker is read for reuse, a request under another secret mints a marked key, and the marking UPDATE hits the one-active index |
| `TokenWorkers.LostRaceLeavesNoLegacy` | inference_proxy/auth/store.py:704-722 | after a lost race nothing unmarked is left to reuse |
| `TokenWorkers.WorkersStayBehind` | inference_proxy/auth/store.py:671-778 | throughout every interleaving the indexes hold and no generation exceeds its position |
| `TokenWorkers.MintIsCommitted` | inference_proxy/auth/store.py:671-693 | a write that mints, in any interleaving, leaves the returned value resolving to the new row, the only live marked one of the user |
| `TokenWorkers.RaisingTakesForeignRow` | inference_proxy/auth/store.py:694-778 | a lost race followed by a raise takes a row, committed after the read, that carries a derived value without the marker |
| `TokenWorkers.ForeignRowMakesRecoveryRaise` | inference_proxy/auth/store.py:694-778 | counterexample: such a row, as a worker from before the marker writes it, beside another live marked key makes recovery raise |
| `TokenRaces.RacingMintIsStableIff` | inference_proxy/auth/store.py:671-693 | the next request under the same secret returns the key just minted if and only if no config row of the user was committed between the read and the INSERT; otherwise it returns another key and the one handed out no longer resolves; the table may itself come from races |
| `TokenRaces.MisplacedRotates` | inference_proxy/auth/store.py:608-646 | a live key that stands at another position than its generation is revoked by the very next request, which returns another |
| `TokenRuns.RacingMintIsPlacedIff` | inference_proxy/auth/store.py:671-693 | the cause of it: the minted generation is the position of its row under exactly that condition |
| `TokenRuns.RaceRotatesKey` | inference_proxy/auth/store.py:671-693 | such a race on the smallest table: a token the user names "agent-config" rotates the key just handed out |
| `TokenRuns.StepKeeps` | inference_proxy/auth/store.py:576-908 | every call keeps the constraints and the placement of derived values, and rows only evolve: appended, revoked for good, marked |
| `ConfigKeys.RequestServes` | inference_proxy/auth/store.py:576-693 | under the lock a request violates no constraint and leaves the returned value as the user's only live marked key |
| `ConfigKeys.RequestReuses` | inference_proxy/auth/store.py:654-670 | a live row that carries its position's value is reused and marked, all other unmarked rows stay |
| `ConfigKeys.RequestMints` | inference_proxy/auth/store.py:671-693 | with nothing to reuse, the next generation is minted without conflict |
| `ConfigKeys.ServedAgain` | inference_proxy/auth/store.py:608-632 | while a row serves the user, requests under its secret return its value and change nothing |
| `ConfigKeys.MintIsFree` | inference_proxy/auth/store.py:671-693 | the next generation never collides with a stored value, because generations equal positions |
| `AuthStore.Store.GetOrCreateConfigToken` | inference_proxy/auth/store.py:576-693 | an unknown user is refused without a change; any other gets a value that resolves to a row of that user |
| `AuthStore.Store.RecoverLostRace` | inference_proxy/auth/store.py:694-778 | the retry loop goes round only when another worker committed between a turn's read and its writes |
| `AuthStore.Store.ResolveToken` | inference_proxy/auth/store.py:811-843 | a value resolves exactly to an unrevoked row with its hash |
| `AuthStore.Store.RevokeToken` | inference_proxy/auth/store.py:797-809 | when it reports true the owner's row is revoked, its value no longer resolves and nothing else changed; it reports false exactly when there is no such live row, and then nothing changed |
| `AuthStore.Store.RevokeAnyToken` | inference_proxy/auth/store.py:1345-1357 | the same for any live row, whoever owns it |
| `AuthStore.Store.CreateToken` | inference_proxy/auth/store.py:532-574 | one more live row whose value resolves to it, every other row unchanged; an unknown user or a used value is refused without a change |
| `AuthStore.Store.CreatePersonalToken` | inference_proxy/auth/store.py:849-908 | on success the new value is the only live token of the user; on failure nothing changed |
| `Framing.FramingAccounts` | common/provision-logs.py:298-305 | for every stream and chunking: records with their newlines plus pending bytes are exactly the input, every record is within the limit and free of newlines |
| `Framing.RecordsCarryInput` | common/provision-logs.py:617-624 | the emitted text plus the pending bytes is the input without its newlines |
| `Framing.ProgressIff` | common/provision-logs.py:298-305 | every iteration shortens the buffer if and only if the limit is positive |
| `FramingChunks.CutSplitsNothing` | common/provision-logs.py:31-39 | on any buffer the cut takes the whole allowance, unless a character that began inside the record would be split; then it takes everything before that character |
| `FramingTheorems.CharactersKeptIff` | common/provision-logs.py:31-39 | every record cut from any valid UTF-8 stream, however chunked, is valid UTF-8 if and only if the limit is at least 4 |
| `FramingTheorems.ChunkingIsIrrelevant` | common/provision-logs.py:298-305 | all chunkings of a stream give the same texts and the same pending bytes, apart from empty records |
| `FramingChunks.SameRecordsIff` | common/provision-logs.py:298-305 | a chunking gives as many records as the stream framed at once plus one per boundary that falls right behind a full record whose newline comes next, and the very same records if and only if there is no such boundary |
| `FramingChunks.SplitAddsEmptyRecord` | common/provision-logs.py:298-305 | the extra, empty record is real at every limit and for every full record of whole characters |
| `FramingChunks.EndOfInput` | common/provision-logs.py:606-612 | when the input has ended the records are exactly the input, within the limit, and whole characters if the input is valid UTF-8 and the limit at least 4 |
| `FramingTheorems.DrainBuffer` | common/provision-logs.py:298-305 | the inner loop refines the recursive account |
| `Utf8.CleanIffValid` | common/provision-logs.py:31-39 | the decoder accepts exactly the encodings of section 3 of RFC 3629 |
| `Utf8.PrefixVerdict` | common/provision-logs.py:31-39 | a prefix of a valid string is valid up to a character it cuts off, whose start is what the decoder reports |
| `EngineTail.CaptureEngineOutput` | common/provision-logs.py:538-634 | durable capture closes at the first stop request or at the end of the input, after the buffered batch and with the unterminated line included; a forgotten attempt or an evicted file leaves exactly what the last flush stored; the raw file is at every step a contiguous suffix of the output within the tail limit, all of it while it fits |
| `EngineTail.AppendedIsSuffix` | common/provision-logs.py:625-632 | rotation and append keep the file a suffix within the limit, drop nothing that fits, and keep as much of the new chunk as fits |
| `EngineTail.PruneRawLogs` | common/provision-logs.py:58-73 | exactly the newest logs stay that are recent and leave room for one more attempt |
| `EngineTail.TailsStayWithinBudget` | common/provision-logs.py:548-554 | over every run of attempts, one at a time, under accepted settings, all retained tails together stay within half the node budget, each with room for the configured minimum |
| `EngineTail.TailsFitIff` | common/provision-logs.py:548-554 | full tails of all attempts fit half the budget if and only if the budget is at least two bytes per attempt |
| `EngineTail.TailLimitIsLargest` | common/provision-logs.py:548-554 | the tail limit is the largest that the attempt budget and the node budget allow |
| `EngineTail.BudgetIsReached` | common/provision-logs.py:548-554 | the bound is tight: a node can come to hold a full tail for every attempt |
| `EngineTail.NewestFirstIsStable` | common/provision-logs.py:65-65 | logs of the same age stay in listing order |
| `EngineTail.RoomForMinimum` | inference_proxy/config/settings.py:401-427 | accepted settings leave every tail at least the minimum the fit plan line needs |
| `HostLock.OneWorkerMutates` | common/provision-logs.py:218-245 | in every run through crashes, kills, releases, forks and handoffs, all processes that mutate the host belong to one worker |
| `HostLock.LockHeldWhileUsed` | common/provision-logs.py:76-124 | the lock is held exactly while some process keeps a copy, in particular while anything mutates the host, and nobody else can take it then; a free lock is granted |
| `HostLock.LettingGo` | common/provision-logs.py:112-124 | a process that exits, hands off or releases lets go of its own copy and nobody else's, and the lock is free exactly when no copy is left |
| `HostLock.SurvivorKeepsFence` | common/provision-logs.py:83-88 | a forked survivor keeps the fence after supervisor and command are gone, and a second worker is refused |
| `HostLock.StepKeeps` | common/provision-logs.py:314-394 | every step keeps each copy with its worker and each mutating process with a copy |
| `SystemMessageTheorems.PrefixIsStable` | inference_proxy/api/system_messages.py:93-126 | if a message list extends one that already holds a conversation message, the shorter rewritten list is a prefix of the longer and the bodies agree on the prompt and everything else, for both formats |
| `SystemMessageTheorems.RewriteIsIdempotent` | inference_proxy/api/system_messages.py:140-174 | rewriting twice equals rewriting once, for both formats and every body |
| `SystemMessageTheorems.RewriteKeepsOrder` | inference_proxy/api/system_messages.py:108-121 | the rewritten list is exactly the kept items in order, conversation messages unchanged, each later system message with text as one reminder |
| `SystemMessageTheorems.KeptIndexesExact` | inference_proxy/api/system_messages.py:108-121 | the kept items are named once each, in increasing order, and no kept item is missed |
| `SystemMessageTheorems.SystemStaysFirst` | inference_proxy/api/system_messages.py:108-121 | no system message follows one that is not |
| `SystemMessageTexts.EveryTextOnce` | inference_proxy/api/system_messages.py:93-126 | of the rewritten body: its list is the conversation unchanged and complete; the items that stand for later system messages carry exactly the later texts, each in its envelope, once and in order; the prompt reads as the old one followed by the leading texts; together these are all system texts |
| `SystemMessageTexts.RewrittenCarries` | inference_proxy/api/system_messages.py:108-121 | read off the rewritten list at the places of later system messages, the texts are the later texts of the input in their envelopes |
| `SystemMessageTexts.RewrittenSpeaks` | inference_proxy/api/system_messages.py:108-121 | the messages without a system or developer role come out unchanged, complete and in order |
| `SystemMessageTexts.NoSystemRoleLater` | inference_proxy/api/system_messages.py:108-121 | no message with the role system or developer follows one without |
| `SystemMessageTexts.ReminderShape` | inference_proxy/api/system_messages.py:75-90 | a later system message becomes a user message with one text block per text in its envelope, and the last cache_control marker on the last block of a Messages request |
| `SystemMessageTexts.LastMarkerExact` | inference_proxy/api/system_messages.py:87-89 | that marker is the last truthy one among the parts |
| `SystemMessageTexts.TruthyIff` | inference_proxy/api/system_messages.py:87-87 | which values do not count as a marker |
| `SystemMessageTexts.TextsOneByOne` | inference_proxy/api/system_messages.py:40-56 | which parts of a content value count as text, one part at a time |
| `SystemMessageTexts.RewriteReach` | inference_proxy/api/system_messages.py:36-37 | a rewrite raises exactly when some role is a list or an object, and changes nothing but messages and prompt |
| `SystemMessageTheorems.ReminderCarriesTexts` | inference_proxy/api/system_messages.py:129-137 | one reminder carries the texts of its message, one part each |
| `SystemMessageTheorems.PromptFormsAgree` | inference_proxy/api/system_messages.py:59-72 | the string, missing and block-list forms of the extended prompt read as the same text |
| `SystemMessageTheorems.RewrittenConcat` | inference_proxy/api/system_messages.py:108-121 | rewriting is a homomorphism, up to whether the conversation has started |
| `SystemMessages.RewriteItems` | inference_proxy/api/system_messages.py:108-121 | the loop over `leading`, `rewritten` and `started` refines the recursive rewrite |
| `SystemMessages.Inline` | inference_proxy/api/system_messages.py:140-174 | both functions return the rewritten body, or the input where there is nothing to rewrite; a role that cannot be hashed raises |
| `GgufFamilies.NormalizeIff` | inference_proxy/huggingface/artifacts.py:63-103 | the normaliser accepts exactly the standalone files and the complete families 1..N, and answers with their canonical form |
| `GgufFamilies.NormalizeIgnoresOrder` | inference_proxy/huggingface/artifacts.py:63-103 | permuted lists normalise to the same spec |
| `GgufFamilies.NormalizeIsIdempotent` | inference_proxy/huggingface/artifacts.py:63-103 | normalising a normalised artifact changes nothing |
| `GgufFamilies.IdentityIgnoresOrder` | inference_proxy/huggingface/artifacts.py:106-126 | the artifact identity does not depend on listing order |
| `GgufFamilies.IdentityIsExact` | inference_proxy/huggingface/artifacts.py:106-126 | artifacts with one identity are the same artifact |
| `GgufListing.RevisionSpecs` | inference_proxy/huggingface/artifacts.py:354-393 | the specs are exactly the standalone files and the complete families, each once, ascending by entrypoint; every rejected path and incomplete family counts once |
| `GgufListing.ListingIsUnique` | inference_proxy/huggingface/artifacts.py:393-393 | a set of specs has one ascending listing, so listing order and iteration order do not matter |
| `GgufListing.BeforeIff` | inference_proxy/huggingface/artifacts.py:393-393 | what ascending means: at the first difference the smaller character decides, or the shorter string |
| `GgufIndex.GroupPaths` | inference_proxy/huggingface/artifacts.py:361-381 | the groups hold exactly the shards seen, by family and index; the duplicate branch is never taken |
| `GgufIndex.SpecsAreNormal` | inference_proxy/huggingface/artifacts.py:383-393 | every spec passes the normaliser and is already canonical |
| `GgufIndex.SpecsPartition` | inference_proxy/huggingface/artifacts.py:383-393 | each path lands in at most one spec, and specs hold listed paths only |
| `GgufIndex.NothingOverlooked` | inference_proxy/huggingface/artifacts.py:354-393 | every acceptable path is in a spec or belongs to an incomplete family |
| `GgufPaths.ShardOfPart` | inference_proxy/huggingface/artifacts.py:49-60 | a shard name is rebuilt from its parsed family and index, digit by digit |
| `GgufPaths.PartOfShard` | inference_proxy/huggingface/artifacts.py:49-60 | every shard path with five-digit numbers and a non-empty prefix is parsed into exactly its family and index |
| `GgufPaths.ValidPathIff` | inference_proxy/huggingface/artifacts.py:26-38 | the accepted paths are exactly proper segments joined by slashes with a name that ends in .gguf |
| `GgufIndex.FilesAreSpecs` | inference_proxy/huggingface/artifacts.py:354-393 | every valid file without a shard name is a spec, and so is every family all of whose shards are listed |
| `GgufPaths.SamePartSamePath` | inference_proxy/huggingface/artifacts.py:49-60 | two paths that parse alike are the same path |
| `LibraryClosure.BundleLibraries` | common/llamacpp_artifacts.py:297-327 | on every finite graph bundling terminates; the result is closed under non-platform dependencies, holds under each name the file that `ldd` shows for it, each name once and nothing unreachable, and every binary and bundled file was inspected with nothing unresolved; it fails only over a reachable file |
| `LibraryClosure.BundleIsLeast` | common/llamacpp_artifacts.py:306-327 | when a name always leads to one file, any set of names closed under non-platform dependencies from the binaries holds the whole bundle |
| `LibraryClosure.BundleIsClosed` | common/llamacpp_artifacts.py:306-327 | and the bundle is such a set, so it is the least one |
| `LibraryClosure.PlatformIff` | common/llamacpp_artifacts.py:303-305 | which names stay with the node |
| `LibraryClosure.BundleDependencies` | common/llamacpp_artifacts.py:318-327 | one file's dependencies: all bundled afterwards, each with the file the output names, or a bad name reported; any addition shrinks what is left |
| `Failover.ProxyNonStreaming` | inference_proxy/api/routes.py:414-511 | at most max_attempts attempts on pairwise different nodes, each reservation given back before the next selection, none left at the end; told by the backend outcomes, another node is tried exactly after a timeout, a transport error or a 5xx, and the reply is the first other outcome, or exhaustion with exactly the attempts made; metrics and breaker hear of every attempt and of every failure |
| `Failover.StreamCompletion` | inference_proxy/api/routes.py:899-1063 | the same under the handshake deadline; exactly a 2xx answer in time hands on one live, unreleased reservation in its session |
| `Failover.PlainByOutcome` | inference_proxy/api/routes.py:142-151 | the attempts and the reply, told by backend outcomes alone |
| `Failover.StreamByOutcome` | inference_proxy/api/routes.py:142-151 | the same for handshakes and the clock |
| `Failover.FirstAnswerIsRelayed` | inference_proxy/api/routes.py:454-498 | if the nodes the selector gives within the limit all fail up to one that answers below 500 with renderable content, that answer is relayed |
| `Failover.FirstStreamIsTaken` | inference_proxy/api/routes.py:971-1036 | if they all fail in time up to one that answers 2xx in time, that one is streamed |
| `Failover.AttemptHandshake` | inference_proxy/api/routes.py:958-1056 | one turn of the streaming loop: an error that is retried leaves everything ready for the next turn with that node excluded, anything else is the reply |
| `Failover.DisciplinePays` | inference_proxy/api/routes.py:414-511 | any log in this discipline tries different nodes, holds at most one reservation at a time and gives each back exactly once |
| `Failover.PlainReplyUnique` | inference_proxy/api/routes.py:414-511 | attempts and reply of the non-streaming loop are determined by selector, backends and limit |
| `Failover.StreamReplyUnique` | inference_proxy/api/routes.py:899-1063 | attempts and reply of the streaming loop are determined by selector, backends, clock and limit |
| `Failover.StreamSettles` | inference_proxy/api/routes.py:285-312 | once its session is closed, a streamed request has nothing reserved and gave each node back exactly once |
| `Failover.CloseRepeatedly` | inference_proxy/api/routes.py:285-312 | closing a session any positive number of times gives its connection back exactly once |
| `Failover.SettlePlain` | inference_proxy/api/routes.py:454-500 | an attempt gives its reservation back whatever it raised; the breaker hears of a failure exactly when one was raised |
| `Failover.SettleHandshake` | inference_proxy/api/routes.py:970-1036 | a handshake keeps its reservation exactly when a stream is established; a 4xx answer that cannot be rendered closes twice and releases once |
| `Failover.NodeReservation.Release` | inference_proxy/routing/node_selector.py:29-44 | the connection is given back by the first call only |
| `Failover.StreamingSession.Close` | inference_proxy/api/routes.py:299-312 | the close task exists once; later calls release nothing |
| `Reservations.CountsExactIff` | inference_proxy/routing/node_selector.py:120-139 | in every interleaving of reservations, repeated releases, drains, sweeps and discovery, counts equal open reservations in every state if and only if no step forgets a node in use |
| `Reservations.NodesInUseStay` | inference_proxy/routing/node_selector.py:213-217 | a node with an open reservation is never swept away |
| `Reservations.DrainedNodesGo` | inference_proxy/routing/drain_cleanup.py:14-33 | behind every sweep and every release a DRAINING node is left only while a reservation on it is open |
| `Reservations.CountedDownOnce` | inference_proxy/routing/node_selector.py:38-44 | however many finalizers compete, a reservation is counted down exactly once when it is done and never before |
| `Reservations.PhasesAdvance` | inference_proxy/routing/node_selector.py:38-44 | a called release is never undone |
| `Reservations.ForgettingLosesCount` | inference_proxy/provisioning/provisioner.py:2370-2399 | counterexample: a node forgotten and rediscovered while in use is swept away under its open reservation |

## Left out

- HTTP, SSE, SSH, Redfish, QUADS and Hugging Face calls, JSON and base64 decoding, FastAPI handlers, templates, billing and the OIDC provider: plumbing without a hard invariant.
- Discovery: the startup relaunch recovery of the first snapshot (inference_proxy/discovery/watcher.py:177-195), and direct registry writes of the provisioner, the admin drain and `_apply_model_if_current`, are not steps of the discovery runs; the status of a node that another component drains is therefore not tracked there.
- Discovery: a node's etcd-owned fields are represented by name, endpoint, model, management and owner; the remaining fields travel with them in the source and are merged in the same way.
- Watcher.EtcdWatcher.RunTurn: the cluster commits between the batches of a turn; a registry change by another thread inside a turn, a stop request and the back-off delays are not part of the method. The first is a step of the state machine instead.
- Leases: an ambiguous transport error during a transaction, whose outcome is then unknown, and a revocation that fails.
- Suspensions: errors of the etcd client other than a lost comparison.
- Generations: `vllm.env`, directory syncing, and the activation lock itself. Bundles and runtimes are damaged and repaired between calls, not during one; an activation refused at common/generations.py:308-309, before it takes the lock, is one stopped before its first operation.
- GenerationRoot.Root.Activate: takes a staging directory name that is not in use, as `mkdtemp` gives.
- Publication: the staged directory is verified before it arrives and is not damaged while it is private.
- AuthStore: schema migration, setup links, usage statistics, display prefixes, scopes, timestamps and user accounts.
- AuthStore.Store.GetOrCreateConfigToken: the recovery branch is a separate method, `RecoverLostRace`, because under the lock and without other workers it is never reached.
- Framing: the decoding and parsing of emitted lines, and errors of the record store other than a forgotten attempt.
- HostLock: hosts without locking, and reuse of a descriptor number after a double close.
- EngineTail.PruneRawLogs: file system errors while listing or removing, and journal eviction.
- GenerationRoot: reporting what is selected after a failed link switch (common/generations.py:361-366), which changes no file.
- SystemMessages: object key order; numbers are reals.
- GgufListing.RevisionSpecs: paths arrive relative to the snapshot and with the .gguf suffix.
- LibraryClosure: copying, patching and hashing of library files; `ldd` output is taken as parsed, and a copied file has the dependencies of its original.
- Failover: cancellation inside the streaming handshake, metrics beyond the first-request mark, circuit breaker state, and the selection policy itself.
- Failover.StreamCompletion: other requests run between its steps in the source; its contract is about its own log, and `Reservations` covers the interleaving.
- Reservations: the fields a selection filters by, other than health and exclusion.
