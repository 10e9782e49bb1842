# Ur: slots, leases, launches and events

Ur runs coding agents ("workers") in containers. Each worker gets a *slot*: a git clone on the
host that is bind-mounted at `/workspace`. This project models the parts of Ur that keep slots,
the files in them, and the records about them consistent, and proves what those parts guarantee.

* **Overlays.** A project's private `local/` files are copied over a slot and must be invisible to
  git. builderd hides them before every `git`/`gh` command (*conceal*), puts them back afterwards
  (*reveal*), and counts overlapping commands with leases. `PinnedFile`, `Overlay` (what a completed
  or aborted conceal/reveal means), `OverlayManager` (the operations as they run, with every step
  able to fail), `Bracket` (all interleavings), `Exec` (the life of one command), `PoolHandler`
  (bringing a slot back to a known state).
* **Slots and workers.** The server hands out slots with an in-memory claim set, guards, database
  links and a disk scan, then records, launches, finalizes, links and, on failure, compensates.
  `Pool` (claim set, index choice, one acquisition), `Fleet` (the step machine of many launches and
  stops, and exactly which steps keep slots exclusive), `FleetPaths` (the steps of an acquisition),
  `FleetRuns` (whole runs), `FleetFailures`
  (runs in which slots are shared), `Worker` (module `WorkerManager`: one launch and one stop as the code
  runs them, and why they are paths of the machine).
* **Events.** Two database pollers feed one merged stream to any number of listeners: `Events`,
  `UiEvents`.
* **Paths and configuration.** `HostPaths` composes the server's `%WORKSPACE%` mapping with
  builderd's expansion; `Modes` resolves worker modes from `ur.toml`; `Skills` merges skill lists.

File names are the module names, except `Worker.dfy`. `dafny verify dfyconfig.toml` checks
everything.

## How to read the model

A slot on disk is a `SlotState`: git index, skip-worktree bits, worktree, the overlay copy and the
pinned file under `.git/ur-overlay`. A path is a string, a git command a transition on that state.
Operations that change things in place are methods of classes; each is proved equal to a function
or within a predicate on states, and the laws are lemmas about those. An operation that may fail
does so by a nondeterministic choice at every call, which is counted, or by a fault record where the
outcome of each call matters; contracts say exactly when it succeeds. Concurrency is a step machine whose steps are what the code does between two awaits.

## Where the code falls short of a promise

Each of these is a concrete run or input, next to the exact condition under which the promise holds.

* A conceal that fails inside its capture loop can lose a worker's edit, because the recovery reveal
  writes the last stashed copy over it (`Overlay.EditLostWhenCaptureAborts`, exact in
  `Overlay.RecoveryDuringCapture`). The comment at `crates/builderd/src/overlay.rs:108-109` speaks
  only of overlays being present.
* Showing a slot to a launch and claiming it are separate steps, in two places. Two launches holding
  the same list of free slots can both end up linked to one of them
  (`FleetFailures.StaleSnapshotSharesSlot`); and a new slot's row is visible before its own launch
  claims it, so another launch can come and go in between (`FleetFailures.NewSlotWindowSharesSlot`).
  If nobody is linked to a slot between either step and the claim, links are exclusive in the whole
  run, whatever is cancelled, fails or is stopped (`FleetRuns.LinksAreExclusive`). The exact
  condition is that a claimed slot has no active worker, per step in `Fleet.LinksExclusiveIffClaim`
  and per run in `FleetRuns.LinksRunIffInactiveClaims`. That nobody works in another's slot besides
  needs careful launches and stops (`FleetRuns.SlotsAreExclusive`); its exact condition is
  `Fleet.Safe` (`Fleet.ExclusiveIffSafe`, `FleetRuns.ExclusiveRunIffSafe`).
* Stopping a worker ignores its status: a second stop cleans the slot of its successor
  (`FleetFailures.StoppingStoppedWorkerCleansOthersSlot`), and a stop during provisioning leaves a
  running container with no link (`FleetFailures.StoppingProvisioningWorkerOrphansContainer`). By
  `Fleet.Safe` a stop may turn to a slot exactly while nobody else works in it, and may unlink or
  mark a worker exactly when its container is gone or still held by its launch; the latter alone is
  exact for containers (`Fleet.HeldIffSafe`, `FleetRuns.HeldRunIffSafe`).
* What a worker writes to an overlay file while a bracketed command runs is overwritten by the reveal
  (`Bracket.WriteUnderLeaseIsLost`), and an overlay file it deletes comes back
  (`Bracket.DeletionIsUndone`). Exact in `Bracket.WorkConservedIffEditsKept`.
* A row committed with a smaller id between a fetch and its delete is deleted unseen
  (`Events.LateRowIsLost`, exact in `Events.DeleteLosesExactlyLateRows` and, for whole runs,
  `Events.AlwaysAccountedIffDeletesSeen`).
* The workspace root is compared as a string prefix, so a sibling directory whose name starts with
  the root's is mapped inside it (`HostPaths.SiblingIsMappedInside`, exact on path components in
  `HostPaths.MapThenExpand`).
* Two slot directories that parse to one number, such as `0` and `00`, can make the index choice
  return a used index (`Pool.RepeatedScanPicksUsedIndex`, exact in `Pool.NextIndexIsLeastUnused`).
* A mode's effort is checked against the mode's agent, not the one a launch asks for
  (`Modes.UltraReachesClaude`, exact in `Modes.EffortSupportedUnlessUltraOnClaude`).
* The comments at `crates/server/src/worker.rs:357-365` and `491-495` describe a flat
  `[worker_models]` table as a fallback; the code (`182-188`) rejects any entry that is not an agent
  table. The model follows the code.

## Model

| member | source | states |
|---|---|---|
| PinnedFile.PinnedRoundTrip | crates/builderd/src/overlay.rs:271-288 | writing a list NUL-joined and reading it back is the identity if and only if every path is non-empty and NUL-free |
| PinnedFile.AscendingUnique | crates/builderd/src/overlay.rs:205-206 | the sorted duplicate-free list is determined by its elements, so directory order cannot change the pinned file |
| PinnedFile.SortDedup | crates/builderd/src/overlay.rs:205-206 | sort then dedup gives the one ascending list of the elements |
| Overlay.LinkedPathMeans | crates/builderd/src/overlay.rs:352-372 | the recorded name of a replaced link is its directory followed by a relative target, what an absolute target names below the slot, and nothing for a link out of the slot |
| Overlay.RestoredMeans | crates/builderd/src/overlay.rs:217-235 | a conceal restores exactly the index entries at overlay paths and below them |
| Overlay.PinnedReadsBack | crates/builderd/src/overlay.rs:199-212 | what a conceal unpins is exactly what the reveal before it pinned |
| Overlay.ConcealHides | crates/builderd/src/overlay.rs:154-191 | after a successful conceal from any state every overlay path shows its index entry, or is absent when untracked, and is unpinned; other paths are untouched |
| Overlay.BracketRoundTrip | crates/builderd/src/overlay.rs:154-215 | conceal, any command leaving the overlay state alone, reveal: overlay files have their pre-conceal content, worker edits included, and every other path is what the command left |
| Overlay.RevealThenConceal | crates/builderd/src/overlay.rs:154-215 | reveal then conceal restores worktree, index, skip bits and overlay copy if and only if the slot was hidden and nothing about to be pinned carried a skip bit; and when git lets that conceal through |
| Overlay.HiddenSlotIsStable | crates/builderd/src/overlay.rs:154-215 | from a concealed slot without skip bits, git allows the conceal that follows a reveal, and it returns to the same slot, replaced symlinks and their pinned targets included |
| Overlay.RecoveryAfterCapture | crates/builderd/src/overlay.rs:105-118 | a conceal failing at any step after its capture loop loses no overlay content once the recovery reveal succeeds |
| Overlay.RecoveryDuringCapture | crates/builderd/src/overlay.rs:158-166 | a conceal failing in its capture loop keeps every overlay path present, with pre-conceal content if and only if the file was reached or unedited |
| Overlay.EditLostWhenCaptureAborts | crates/builderd/src/overlay.rs:158-166 | a slot and an aborted capture after which recovery overwrites a worker edit |
| OverlayManager.Slot.UpdateIndexSkip | crates/builderd/src/overlay.rs:168-173 | succeeds exactly when the call does and all paths are index entries, and sets or clears the bits of all of them or of none |
| OverlayManager.Slot.CheckoutPaths | crates/builderd/src/overlay.rs:183-187 | succeeds exactly when the call does and no path is skipped, restoring the given index entries; may have written any of them when it fails |
| OverlayManager.Slot.TrackedSubset | crates/builderd/src/overlay.rs:217-235 | exactly the index entries the literal pathspecs list, a directory spec listing what is below it; nothing when there is no repository; fails exactly when the call does or, in a repository, on an empty pathspec |
| OverlayManager.Slot.PlaceFile | crates/builderd/src/overlay.rs:319-386 | fails exactly when a call does; a placed overlay replaces a symlink by a file and reports its own path and what the link pointed to inside the slot, and nothing else |
| OverlayManager.Slot.CopyIntoWorktree | crates/builderd/src/overlay.rs:319-346 | whatever the listing order, all overlays are placed and the reported paths are exactly the placed paths and link targets |
| OverlayManager.Slot.PinTracked | crates/builderd/src/overlay.rs:199-212 | pins and records exactly the reported paths that are index entries |
| OverlayManager.Slot.Reveal | crates/builderd/src/overlay.rs:195-215 | succeeds exactly when no call fails, there is an overlay copy and, in a repository, no overlay replaces a link to the slot root; then it is the whole-slot reveal, and otherwise one of the described partial states |
| OverlayManager.Slot.Capture | crates/builderd/src/overlay.rs:154-166 | every regular overlay file of the worktree is captured; a failure leaves a subset captured and nothing else changed |
| OverlayManager.Slot.RemoveFiles | crates/builderd/src/overlay.rs:176-182 | removes exactly the given paths, or some of them on failure |
| OverlayManager.Slot.HideFromGit | crates/builderd/src/overlay.rs:168-187 | unpins, removes the untracked and restores the tracked overlays, or stops at one of the described partial states |
| OverlayManager.Slot.Conceal | crates/builderd/src/overlay.rs:154-191 | succeeds exactly when no call fails and git allows it; then it is the whole-slot conceal, and otherwise one of the described partial states |
| OverlayManager.Slot.ConcealFor | crates/builderd/src/overlay.rs:99-120 | no lease exactly without overlays; a conceal is begun exactly for the first lease; it is refused only when a call fails or git does not allow it, and then no lease is counted and a recovery reveal is begun |
| OverlayManager.Slot.RevealAfter | crates/builderd/src/overlay.rs:123-131 | the counter goes down and saturates at zero; a reveal is begun exactly on reaching zero and the release succeeds exactly when that does |
| OverlayManager.Slot.Discard | crates/builderd/src/overlay.rs:86-93 | overlay copy and pinned file are gone, worktree and index untouched; a failing removal may leave any part of the overlay state |
| OverlayManager.Slot.Apply | crates/builderd/src/overlay.rs:52-82 | succeeds exactly when no call fails and the files can be revealed; then whatever overlay state there was is replaced by the project's local files, revealed, or only discarded when there are none |
| Bracket.LeasesCounted | crates/builderd/src/overlay.rs:99-131 | in every interleaving, failing steps included, the counter equals the number of outstanding leases |
| Bracket.EditConservesIffKept | crates/builderd/src/overlay.rs:158-166 | an edit of the worker is what brackets keep if and only if every overlay path it changes is left a regular file, and under a lease with the content the overlay copy has |
| Bracket.WorkConservedIffEditsKept | crates/builderd/src/overlay.rs:99-215 | in every run in which no reveal fails and no capture is cut short, what the worker last left at each overlay path is conserved throughout if and only if no edit removes an overlay file and none gives one new content while a lease is out |
| Bracket.WriteUnderLeaseIsLost | crates/builderd/src/overlay.rs:195-215 | for every path and content, a run without any failure in which a write made under a lease is overwritten |
| Bracket.DeletionIsUndone | crates/builderd/src/overlay.rs:195-215 | for every path and content, a run without any failure in which a deleted overlay file comes back |
| Bracket.CommandsNeverSeeOverlays | crates/builderd/src/overlay.rs:99-131 | if commands and workers keep hidden paths in step with the index, every command of every run sees each overlay path as its index entry or absent, and unpinned |
| Bracket.ConcealFirstRevealLast | crates/builderd/src/overlay.rs:99-131 | slots are concealed exactly on the first lease and revealed exactly on the last return; then every overlay path is a regular file, as the worker last left it if its work was conserved so far |
| Bracket.NoLeaseAfterClean | crates/builderd/src/overlay.rs:99-102 | from a slot without overlay state no run grants a lease until files are installed again |
| PoolHandler.ResetSlot | crates/builderd/src/pool_handler.rs:209-267 | succeeds from any repository exactly when no call fails, and ends in the state of a fresh clone |
| PoolHandler.RecloneSlot | crates/builderd/src/pool_handler.rs:177-202 | at most three removal attempts, one if the directory is missing, each of which may delete only some files; then a fresh clone, and before the third attempt the slot is never left half removed |
| PoolHandler.Recycle | crates/builderd/src/pool_handler.rs:272-303 | from any earlier state, missing or unresettable included, a successful recycle is a fresh clone with the local files applied; giving up on the clone takes a failure of the reset and of the re-clone |
| PoolHandler.CleanSlot | crates/builderd/src/pool_handler.rs:522-550 | succeeds exactly on a present repository with no failing call, and leaves no skip bit, overlay file or overlay state; a missing slot is an error |
| PoolHandler.RecycledSlot | crates/builderd/src/pool_handler.rs:272-303 | path by path: worktree is the remote tree overridden by local files, overlay copy is the local files, skip bits are on exactly the tracked overlay paths and the tracked paths that replaced symlinks point to |
| PoolHandler.RecycledThenConcealed | crates/builderd/src/pool_handler.rs:272-303 | the first conceal after a recycle is allowed by git and shows the plain remote tree |
| Exec.ForwardThenReveal | crates/builderd/src/handler.rs:162-194 | a caller hears the pre-exit frames in order for as long as it listens, then the lease is released once, then it hears the child's exit frame or the restore failure |
| Exec.HeardIsTrue | crates/builderd/src/handler.rs:162-194 | of frames and events alone: any exit code sent is the child's own first one and comes last; a caller that stays gets every frame before it, then that exit frame after a successful release, none if the stream had none, and the restore failure after a failed one |
| Exec.RunLeased | crates/builderd/src/handler.rs:91-128 | a held lease is released exactly once, after the child is done, on spawn failure, exit and stream end, however long the caller listens; the spawn failure is reported exactly when the child cannot be started |
| Exec.RunPlain | crates/builderd/src/handler.rs:115-117 | a command without a lease may do anything to the slot and nothing else is done to it, and the caller gets every frame it listens for, in order |
| Exec.SpawnCommand | crates/builderd/src/handler.rs:63-135 | exactly git and gh in a slot with overlays take a lease or are rejected, and rejected only when a call fails or git does not allow hiding; as many leases are released as granted; the slot is concealed, left to the child and revealed in that order; an exit code is seen only after a successful release |
| Exec.LeasedOutcomeMeans | crates/builderd/src/handler.rs:63-135 | once the release of a sole bracketed command has succeeded, overlays have the content they had and everything else is what the child left; an overlapping command leaves the slot as its child did |
| Exec.LeasedCommandIsSteps | crates/builderd/src/handler.rs:63-135 | every leased command is a sequence of steps of the lease machine: take, run, give back the same lease |
| Exec.RefusedCommandIsStep | crates/builderd/src/handler.rs:140-157 | a command whose conceal is refused is the failing step of that machine |
| Exec.HeardMeansReleased | crates/builderd/src/handler.rs:162-194 | there is exactly one release among the events, and an exit code comes only after a successful one |
| Pool.NextSlotIndex | crates/server/src/pool.rs:334-341 | the loop returns the first position that does not hold itself |
| Pool.NextIndexIsLeastUnused | crates/server/src/pool.rs:334-341 | on a sorted scan the index has no gap below it, is at most the number of slots, and is unused if and only if no repeated entry hides it; on a strict scan it is the least unused |
| Pool.RepeatedScanPicksUsedIndex | crates/server/src/pool.rs:334-341 | a sorted scan with a repeat on which a used index is chosen |
| Pool.RepoPoolManager.ClaimSlot | crates/server/src/pool.rs:112-121 | a claim succeeds exactly when nobody holds the slot, which is claimed afterwards |
| Pool.RepoPoolManager.ClaimFirst | crates/server/src/pool.rs:148-171 | the first unclaimed candidate is claimed; falling through means all were claimed |
| Pool.RepoPoolManager.AcquireSlot | crates/server/src/pool.rs:135-229 | recycles exactly when some candidate is unclaimed and recycling works, the first such; prepares a new slot exactly when all are claimed, the scan leaves room and every call works, at the chosen index below the limit; otherwise fails; an acquired slot is the one new claim and no error leaves one |
| FleetPaths.AcquireIsPath | crates/server/src/pool.rs:135-229 | whatever its calls answer, an acquisition running alone is a path of the step machine with exactly that outcome |
| Fleet.StepKeepsGuards | crates/server/src/pool.rs:27-43 | every step, error and cancellation at any await keeps the claim set equal to the ids of live guards, pairwise distinct |
| Fleet.StepKeepsLimit | crates/server/src/pool.rs:174-204 | every step keeps all slot indexes below the limit, however stale the scan |
| Fleet.LimitBoundsPool | crates/server/src/pool.rs:174-204 | such a pool has at most `limit` slots on disk and in the database |
| Fleet.StepKeepsShape | crates/server/src/worker.rs:957-1239 | whatever fails, is cancelled or is stopped, a launch past provisioning has its row, a link agrees with its row and names an existing slot row, and ids not yet used have nothing |
| Fleet.ExclusiveIffSafe | crates/server/src/worker.rs:957-1239 | from every exclusive state of the code a step keeps slots exclusive and containers held if and only if it is safe: a claim of a slot nobody is linked to or works in, an end of a launch whose container is gone or fully recorded, a stop turning to a slot nobody else works in, an unlink or stopped mark of a worker whose container is gone or still held |
| Fleet.SafeWhenCareful | crates/server/src/pool.rs:148-171 | where rows, links, containers and stops agree, a careful step is safe, a claim as soon as nobody is linked to the slot |
| Fleet.HeldIffSafe | crates/server/src/worker.rs:957-1239 | from every state of the code in which containers are held, shared slots or not, a step keeps them held if and only if it does not end a launch, unlink or mark a worker whose container would be left alone |
| Fleet.LinksExclusiveIffClaim | crates/server/src/pool.rs:139-228 | from every state of the code with exclusive links, a step keeps them exclusive if and only if the slot it claims, if any, has no active worker; cancellations, failed compensation and stops never matter |
| Fleet.AvailableMeans | crates/workflow_db/src/worker_repo.rs:369-389 | a slot is listed as free if and only if it has a row and no active worker is linked to it |
| FleetRuns.EveryRun | crates/server/src/pool.rs:135-229 | in every run claims are exactly the live guards and the pool never exceeds its limit |
| FleetRuns.ExclusiveRunIffSafe | crates/server/src/grpc.rs:792-872 | slots are exclusive and containers held in every state of a run if and only if every step of it is safe |
| FleetRuns.HeldRunIffSafe | crates/server/src/worker.rs:957-1239 | in every run, stale snapshots included, containers are held throughout if and only if every step meets the container conditions |
| FleetRuns.ContainersAreHeld | crates/server/src/worker.rs:957-1239 | in every run without a cancellation between container start and link, a failing container removal or a stop of a worker still being launched, however stale the snapshots and however often stops are retried, a running container has its row and a slot claimed by its launch or linked to it |
| FleetRuns.LinksAreExclusive | crates/server/src/pool.rs:139-228 | in every run in which nobody is linked to a slot between the step that shows it to a launch, listing free slots or inserting a new slot's row, and that launch's claim, whatever is cancelled, fails or is stopped: no slot is linked to two active workers, and a claimed slot has no active worker or the claimant's own |
| FleetRuns.LinksRunIffInactiveClaims | crates/server/src/pool.rs:139-228 | in every run links are exclusive throughout if and only if every claim is of a slot without an active worker |
| FleetRuns.CarefulRunIffUnlinkedClaims | crates/server/src/pool.rs:139-228 | in every careful run slots are exclusive throughout if and only if every claim is of a slot nobody is linked to |
| FleetRuns.SlotsAreExclusive | crates/server/src/pool.rs:139-228 | in every careful run with such fresh claims no two ids recycle, run in or clean one slot, and every container is held, besides the exclusive links and claims |
| FleetRuns.LaunchOutcome | crates/server/src/worker.rs:999-1030 | linking leaves a fully recorded worker, a compensated failure leaves neither row, link nor container |
| FleetRuns.RefusalsAreReal | crates/server/src/pool.rs:148-171 | every candidate a launch has passed over was claimed when it was tried |
| FleetRuns.NewSlotOnlyWhenAllRefused | crates/server/src/pool.rs:148-204 | a new slot is prepared only after every candidate of the snapshot was found claimed |
| FleetRuns.ClaimedIsInactive | crates/server/src/pool.rs:139-228 | under fresh claims every claim of every run, of a listed slot or of a new one, is made while the slot has no active worker |
| FleetFailures.StaleSnapshotSharesSlot | crates/server/src/pool.rs:139-171 | a run that ends with two workers linked to and running in one slot |
| FleetFailures.NewSlotWindowSharesSlot | crates/server/src/pool.rs:217-228 | a run from an empty pool in which a new slot is taken between the insertion of its row and its own launch's claim, and both launches end up in it |
| FleetFailures.StoppingStoppedWorkerCleansOthersSlot | crates/server/src/worker.rs:1176-1239 | a run in which stopping a stopped worker cleans the slot another container runs in |
| FleetFailures.StoppingProvisioningWorkerOrphansContainer | crates/server/src/worker.rs:1176-1239 | a run that ends with a running container, a stopped row, no link and no claim |
| WorkerManager.WorkerManager.RunAndRecord | crates/server/src/worker.rs:957-1033 | the awaited calls with their compensation compute the launch effect, whichever of them fail, and keep every link's row |
| WorkerManager.WorkerManager.LaunchWorker | crates/builderd/src/container_handler.rs:191-240 | builderd's launch starts a container and removes it when the startup check fails; a container is left behind exactly when that removal fails too |
| WorkerManager.WorkerManager.StopByWorkerId | crates/server/src/worker.rs:1176-1239 | the awaited calls compute the stop effect; unknown workers and failed calls stop it where it stands |
| WorkerManager.WorkerManager.ReleaseSlot | crates/server/src/pool.rs:236-270 | the worker is unlinked even when cleaning its slot fails |
| WorkerManager.LaunchRecordsOrRestores | crates/server/src/worker.rs:957-1033 | a launch leaves a running row, link and container, or, with compensation working, the rows and links it found and no container; no other worker changes |
| WorkerManager.TracesOfFailedLaunch | crates/server/src/worker.rs:997-1030 | a failed launch leaves a row if and only if deleting it failed, and a container if and only if one was started and its removal, by builderd or by the server, failed; never a link |
| WorkerManager.StopOutcome | crates/server/src/worker.rs:1176-1239 | a stop succeeds exactly when the worker is known and its container, link and row could be dealt with, and then it is stopped, unlinked and without container, cleaned or not; what each failing call leaves; no other worker changes |
| WorkerManager.RetriesConverge | crates/server/src/worker.rs:1176-1239 | after any sequence of stops failing anywhere, one faultless stop ends exactly where a first faultless stop would have |
| WorkerManager.LaunchThenStop | crates/server/src/worker.rs:957-1239 | a launch and a stop give back links and containers, clean the slot and leave only a stopped row |
| WorkerManager.LaunchIsPath | crates/server/src/worker.rs:957-1033 | whichever calls fail, the launch sequence is a path of the step machine ending linked or ended |
| WorkerManager.StopIsPath | crates/server/src/worker.rs:1176-1239 | so is the stop sequence |
| Events.StepKeepsExactlyOnce | crates/db_events/src/lib.rs:175-221 | sent, in flight and stored events in that order are always the inserted sequence, when rows become visible in id order and no delete fails |
| Events.StepKeepsAtLeastOnce | crates/db_events/src/lib.rs:175-221 | no step loses an event whose row became visible in id order, deletes failing or not |
| Events.EveryEventOnceInOrder | crates/db_events/src/lib.rs:175-221 | in every such run the dispatched log is a prefix of the inserted sequence |
| Events.PollDelivers | crates/db_events/src/lib.rs:175-221 | from an idle poller with rows a poll goes through, sends the whole table as one batch and leaves exactly the rows that appeared meanwhile |
| Events.EveryPollDelivers | crates/db_events/src/lib.rs:175-221 | after every poll of every such run everything visible at its fetch has been sent, once and in order |
| Events.EveryEventAtLeastOnce | crates/db_events/src/lib.rs:175-221 | even with failing deletes every inserted event is in the table, in flight or dispatched |
| Events.DeleteLosesExactlyLateRows | crates/db_events/src/lib.rs:183-221 | a delete loses a stored row if and only if it is at or below the largest fetched id and was neither fetched nor sent |
| Events.AlwaysAccountedIffDeletesSeen | crates/db_events/src/lib.rs:175-221 | in every run, in any order of visibility, every inserted event is in the table, in flight or dispatched throughout if and only if every successful delete meets only rows above the largest fetched id, fetched, or already sent |
| Events.LateRowIsLost | crates/db_events/src/lib.rs:175-221 | a run in which an event committed out of id order vanishes |
| UiEvents.Hub.DispatchBatch | crates/db_events/src/lib.rs:224-237 | every open listener gets the batch once; pruning drops only closed listeners and keeps the order of the rest |
| UiEvents.StepKeepsMerged | crates/server/src/ui_event_poller.rs:56-102 | the merged stream restricted to a database stays that poller's batch sequence in order |
| UiEvents.StepKeepsSegments | crates/server/src/ui_event_poller.rs:105-132 | each listener's log stays a contiguous segment of the merged stream, up to its end while the listener is open |
| UiEvents.EveryRunIsSegmented | crates/server/src/ui_event_poller.rs:56-132 | both hold in every run |
| UiEvents.SubscribeRegisters | crates/db_events/src/lib.rs:66-70 | subscribing adds one open listener with an empty log after the others and changes nothing else |
| UiEvents.CloseEnds | crates/server/src/ui_event_poller.rs:105-132 | a closed listener gets nothing more and the next batch takes exactly it off the list |
| UiEvents.RowsReachListeners | crates/server/src/ui_event_poller.rs:56-132 | when a poller is idle with rows and all it sent was merged, its next poll and merge go through and every open listener receives the whole table as its next batch |
| UiEvents.ListenerSeesInsertedStretch | crates/server/src/ui_event_poller.rs:56-132 | end to end: what a listener received from a database, after what was merged before it subscribed, is a prefix of the rows inserted there, and complete while it is open |
| HostPaths.MapWorkingDir | crates/server/src/grpc_hostexec.rs:700-753 | a directory is accepted if and only if it is `/workspace` or below it, and then the string built by pushing is the slot's template followed by the suffix |
| HostPaths.ExpandsEverywhere | crates/builderd/src/handler.rs:37-45 | every occurrence of the template is replaced, piece by piece between slashes |
| HostPaths.MapThenExpand | crates/builderd/src/handler.rs:37-45 | mapping on the server and expanding in builderd names the bind-mounted host path, component by component, if and only if the slot lies on a component boundary of the workspace root |
| HostPaths.MapThenExpandVerbatim | crates/builderd/src/handler.rs:37-45 | and gives that path character for character if and only if the slot is the root, continues it with exactly one slash, or is elsewhere |
| HostPaths.SiblingIsMappedInside | crates/server/src/grpc_hostexec.rs:722-735 | any slot whose path merely starts with the root's text is mapped inside the root, and lies inside it if and only if the root is empty or ends in a slash |
| HostPaths.PartsJoinIff | crates/server/src/grpc_hostexec.rs:722-735 | a text prefix is a component prefix if and only if a name ends there |
| HostPaths.DirectMount | crates/server/src/grpc_hostexec.rs:700-753 | without a slot the directory expands below the workspace root |
| Modes.FromToml | crates/server/src/worker.rs:366-438 | a file is accepted exactly when agents, runtimes, model tables and modes are valid, whatever the visiting order; then modes, strategies and agents have the same keys, built-ins included, each as the file or the built-in says |
| Modes.AcceptedMeans | crates/server/src/worker.rs:160-272 | which files are accepted, spelled out on the names of agents, bases, runtimes and efforts a file may use |
| Modes.ReadModes | crates/server/src/worker.rs:393-426 | the loop over the file's modes in any order rejects exactly the invalid ones and describes the file on all its names |
| Modes.ParseWorkerModels | crates/server/src/worker.rs:174-209 | accepted exactly when every table names an agent and holds only efforts that agent supports; then the tables are the file's |
| Modes.ResolutionFollowsFile | crates/server/src/worker.rs:496-535 | resolution fails exactly on names neither built in nor in the file, and otherwise follows the promised precedence of agent, model and effort |
| Modes.EmptyFileLaunches | crates/ur_config/src/agent.rs:225-324 | a file that says nothing gives claude, medium effort, each agent's own model per base and the built-in skills; no mode means code |
| Modes.BuiltinSkills | crates/server/src/strategy.rs:96-148 | every built-in list has the common skills, coding lists implement, design lists design, and only manual ones dream |
| Modes.RuntimeFollowsFile | crates/server/src/worker.rs:440-456 | the runtime is the request's, the mode's, the project's or the file's, in that order, and container at last; resolving it never fails |
| Modes.OtherAgentsTablesDoNotMatter | crates/server/src/worker.rs:221-248 | files that differ only in other agents' tables resolve alike |
| Modes.EffortSupportedUnlessUltraOnClaude | crates/server/src/worker.rs:496-535 | the resolved effort is supported by the resolved agent unless, and only unless, claude is requested for a mode pinning "ultra" |
| Modes.UltraReachesClaude | crates/server/src/worker.rs:496-535 | an accepted file and a request that resolve to an unsupported effort |
| Skills.MergeSkills | crates/server/src/worker.rs:747-769 | the loops with their `seen` set compute mode skills, then first occurrences of unseen project skills, then of unseen globals, and the added globals as mounts |
| Skills.IntroducingExact | crates/server/src/worker.rs:755-768 | the positions taken are exactly the first occurrences of unseen names, ascending |
| Skills.MergeKeepsEarliest | crates/server/src/worker.rs:735-769 | mode skills are an unchanged prefix, every name of every source is present, nothing is added twice or when the mode has it, and the mounts are exactly the added globals in order, each the first entry of its name with its host path |
| Skills.MergeIdempotent | crates/server/src/worker.rs:735-769 | merging a merged list again adds nothing and asks for no mount |

## Left out

- Bracket.CommandsNeverSeeOverlays: assumes that what commands and workers do while a lease is out keeps hidden paths equal to the index, as any `git` command that leaves a clean tree does.
- Bracket.WorkConservedIffEditsKept: says nothing about content after a failed reveal or a capture cut short; the next conceal may then capture the index version as a worker edit.
- HostPaths.MapThenExpand: assumes builderd knows its workspace and has the server's root, and that slot and suffix do not contain the template text.
- FleetRuns.SlotsAreExclusive: careful means no cancellation between container start and link, working removal of failed containers, and stops of linked workers only; the necessary and sufficient condition is the one of FleetRuns.ExclusiveRunIffSafe, and in careful runs of FleetRuns.CarefulRunIffUnlinkedClaims.
- Pool.RepoPoolManager.AcquireSlot: runs alone; other launches between its awaits are the subject of Fleet and FleetRuns.
- Process ids are distinct, so the clean-up of a leftover container before launch never meets another worker's container.
- WorkerManager.WorkerManager.RunAndRecord: building the launch request is part of the provisioning failure, and a container that docker stopped but failed to remove counts as present.
- Dropping a request while its conceal or its recovery reveal is still running, which would leave the slot between states.
- Torn writes: copying one file and writing the pinned file are each atomic here.
- Paths are names: worktree directories, files in the way of directories, `.` and `..` in link targets, file modes and nested repositories are not modelled.
- Finding the slot of a working directory, and the maps of per-slot counters and locks: one slot with its counter is modelled, and reinstalling or cleaning happens only with no lease out.
- Submodules, `mise`, quoting in `git ls-files -v`, branch checkout in a slot.
- Scanning directory names into numbers; any list of numbers may be scanned.
- Shared design slots, workspace launches, local runtimes and the start-up reconciliation of workers.
- Listening for notifications, fallback polling, failed fetches, channel capacities and the mapping of entity types to event types.
- Long-lived commands, their registry and reconnects; stdin forwarding.
- Brain directories and script path checks in host execution, which would only add easy members.
- The parsing of TOML text into typed entries.
- gRPC, authentication, Lua command gateway, ticket service, pull requests, backups, the terminal UI.
