# Bento control plane: a verified model

Bento runs virtual machines for many users over several machines. One
controller holds a lease in a database and tells a runner on every machine
what to do: which network to build, which images to hold, which instances to
start. This project models the parts of that controller, its runners and its
web login where ordering, lost messages, crashes and time decide whether the
result is right, and proves what they keep.

Where the source changes things step by step the model has classes and loops,
each proved against a function on values. Protocols between processes are step
systems: `Do` makes one step (a step that is not possible changes nothing),
`Run` makes any number of them in any order, and the theorems hold after every
run. Clocks, random tokens, the network, disk failures, provider answers and
SHA-256 are inputs.

| Files | What they model |
|---|---|
| `Fence`, `ControllerStore`, `LeaseSafety`, `Dispatch` | lease, dispatch generations, the runner's fence, and how late orders are refused |
| `NetworkSync`, `NetworkConvergence` | the controller's cache of applied network descriptions, over reboots, lost answers and restarts |
| `NetState`, `NetStateLaws`, `Forwarding`, `Sequences` | the description of one machine's network and the routes it leads to |
| `Checksums`, `ImageFetch`, `ImageLoss`, `ImageSync`, `ImageRuns`, `RequestDigest` | content-addressed images: fetching, losing, recording, asking |
| `Firewall` | the cached nftables ruleset |
| `LeaseRenewal` | the timed loop that keeps the lease |
| `Series`, `CpuSampler` | the metrics ring and the processor-time sampler |
| `Sessions`, `SilentLogin`, `LoginFlow`, `Cookies` | login sessions, the silent sign-on probe, the login flow, and the cookie format |

## What turned out not to hold

Eight promises are not met by the code as it stands. For each there is a run or
an input on which it fails, and a theorem that says exactly when it holds.

- *The digest cache only saves work.* The comment at bentod/src/runners.rs:221-223
  says the cache saves a call and is not about correctness. The entry is not
  dropped when a new order is sent, so an applied order whose answer is lost,
  followed by a database change back, is skipped while the machine holds the
  other description (`LostAnswerThenRevertSkipsWrongly`). A digest can be
  trusted for good exactly when the last work to end in this boot applied it and
  nothing sent or under way can still get through: each order is of a replaced
  epoch, out of time, superseded or done (`CacheIsSoundExactlyWhen`,
  `OneTickIsEnoughExactlyWhen`). A lost order is out of time once its lease has
  expired on the runner's clock or it is a minute old there. What a controller
  can check itself, that it sent nothing after the acknowledged order, is enough
  where orders do not overlap.
- *A late order never lands on a newer one.* The fence reads the epoch and the
  object and writes both in separate steps, and the work follows; two orders can
  interleave all of these. `NewerSurvivesExactlyWhen` gives the exact schedules,
  `OverlappedServiceBreaksTheCache` what it does to the network cache. What ends
  on top of something newer always read the epoch or the object before that was
  written (`WorkIsInOrder`), so a runner that serves one order at a time is safe
  (`SerialWorkIsInOrder`).
- *The epoch floors the generation, so a restored controller dispatches above
  whatever a runner accepted* (crates/store/src/runners.rs:160-163). The lease
  row is restored with the counters, so the epoch goes back too
  (`RestoreRepeatsANumber`). It holds exactly when all orders of the object lie
  under the floor of the new epoch (`RestoredAboveIsUnderFloor`): the epoch must
  be above every epoch they named, which is enough for up to a million orders of
  one object (`RestoredAboveExactlyWhen`).
- *A recorded image is on the machine.* The directory is not synced after the
  rename, so a power cut can undo it. The file is certain exactly when it was
  published after the last power cut (`FileIsCertainExactlyWhen`); a later pass
  makes up for the loss exactly when it brings the current version back or the
  current version was not the lost one (`RefetchSettlesExactlyWhen`).
- *A successful reload leaves the kernel with the ruleset.* An apply that
  reports failure can have reached the kernel (`SkipAfterLandedFailure`,
  `CacheIsRightExactlyWhen`). The tables are also read one after another, so a
  ruleset is a mix of versions unless the database stood still
  (`QuietReadIsOneVersion`).
- *A third of the lease is always left.* It is the time to live less the longer
  of a period and a renewal, less the lateness of a tick and the duration of the
  next renewal, and no more can be promised (`MarginIsExact`).
- *A holder can renew exactly while its lease is live.* The database compares
  the two times as text. Text is right exactly when the times are not in one
  second with one written fraction beginning the other
  (`TextOrderIsRightExactlyWhen`), which a margin of a second rules out
  (`RenewalFindsLiveRow`).
- *Refused probes are an interval apart.* A refusal that comes after the mark
  cookie is gone is answered with an error page and does not stop the next
  probe (`SecondTabGetsAnError`, `SlowRefusalProbesAgain`,
  `NoProbeAfterErrorExactlyWhen`, `ErrorEndsProbeExactlyWhen`). A sign-on chain
  goes back to the provider for every follow-up that finds its new session
  already over (`VisitsCountLateFollowUps`).

## Model

| member | source | states |
|---|---|---|
| `Fence.RunnerFence.AdmitRequest` | crates/runner/src/fence.rs:96-200 | the answer to an envelope and the durable epoch, generation and digest afterwards are those of `Check` and `Admit`, for every refusal in the order the source asks |
| `Fence.RunnerFence.FinishRequest` | crates/runner/src/fence.rs:204-206 | records the outcome of a request and changes nothing else |
| `Fence.Accept` | crates/runner/src/store.rs:80-123 | neither the accepted epoch nor any object's generation ever goes down, and the accepted object is at least at the new generation |
| `Fence.CheckInSteps` | crates/runner/src/fence.rs:106-195 | a change is let through if and only if each question the source asks one after the other is answered well |
| `Fence.TimelyExactlyWhen` | crates/runner/src/fence.rs:145-157 | in plain numbers, an envelope is in time if and only if it was sent less than 61 s before or after now by the runner's clock and its lease has not expired |
| `Fence.AnswersExactlyWhen` | crates/runner/src/fence.rs:106-195 | each refusal is given if and only if its own condition holds and no earlier one does: version 1, the target, the epoch, 61 s between the clocks, the lease, a missing fence, an older generation, another digest; a read is allowed exactly when it gets past the clock and the lease; a repeated change is answered with what was recorded for it |
| `Fence.EpochNeverGoesBack` | crates/runner/src/fence.rs:128-134 | in every run, with the reads and writes of any number of orders in any order, an epoch that passes after another was written is not lower |
| `Fence.GenerationNeverGoesBack` | crates/runner/src/fence.rs:168-199 | a generation that passes after another of its object was written is not lower, and wants the same digest when it is the same and the earlier write took |
| `Fence.UndisturbedWriteTakes` | crates/runner/src/fence.rs:168-199 | a write takes when nothing was written for its object since the order passed |
| `Fence.FinishedIsNotRepeated` | crates/runner/src/fence.rs:188-194 | a finished change is never allowed again at any later point of any run |
| `Fence.RetryIsAnsweredAlike` | crates/runner/src/fence.rs:188-194 | in every run a retry that gets as far as the outcome is answered with the text that was recorded last for its request |
| `Fence.NewerSurvivesExactlyWhen` | crates/runner/src/fence.rs:128-199 | over all interleavings of two orders' epoch read, object read, epoch write, object write and work, whichever has the higher epoch, the newer work is what stays if and only if it was let through (its epoch is not lower, or it read the epoch before the older wrote it) and the older read the object after the newer wrote it, or read the epoch after the newer wrote a higher one, or worked first |
| `ControllerStore.Store.AcquireLease` | crates/store/src/runners.rs:103-144 | the lease is refused exactly while another holder's is live, otherwise taken with a higher epoch |
| `ControllerStore.Store.RenewLease` | crates/store/src/runners.rs:215-242 | renewal succeeds exactly for the holder whose expiry sorts after now as text, and keeps the epoch |
| `ControllerStore.TextOrderIsRightExactlyWhen` | crates/store/src/runners.rs:221-224 | comparing two times as text is right if and only if they are not in one second with one written fraction beginning the other |
| `ControllerStore.Store.NextDispatchGeneration` | crates/store/src/runners.rs:164-184 | one transaction advances one object's counter to `NextGeneration` |
| `ControllerStore.NextGeneration` | crates/store/src/runners.rs:164-184 | the next generation is above the stored one and above the epoch's floor |
| `LeaseSafety.LeaseIsExclusive` | crates/store/src/runners.rs:96-144 | in every run of taking, renewing, releasing and waiting, leases in force at one moment all belong to one holder |
| `LeaseSafety.EpochNamesHolder` | crates/store/src/runners.rs:96-144 | an epoch names one holder for good, and epochs never go down in the order of granting |
| `LeaseSafety.LostLeaseIsNotRenewed` | crates/store/src/runners.rs:215-242 | once another holder was granted the lease, the old one's renewals fail until it takes it anew |
| `LeaseSafety.TakenExactlyWhen` | crates/store/src/runners.rs:103-144 | in every run a process that asks for the lease is refused if and only if another holder's lease is in force at that moment; otherwise it is granted a lease for the whole time to live under an epoch above all before |
| `LeaseSafety.RenewedExactlyWhen` | crates/store/src/runners.rs:215-242 | in every run a renewal is granted if and only if the last lease granted is the holder's own, was not released and sorts after now as text; it keeps the epoch and starts the whole time to live anew |
| `LeaseSafety.ReadIsLastGrant` | crates/store/src/runners.rs:194-213 | reading the lease gives the last one granted unless it was released |
| `LeaseSafety.ReleasedIsFree` | crates/store/src/runners.rs:245-256 | after a release nothing granted before is in force, and whoever asks next gets the lease under the next epoch |
| `Dispatch.NoGenerationIsShared` | bentod/src/runners.rs:382-399 | however controllers and frontends interleave and whichever lease they name, generations of one object strictly increase in the order they were handed out, between any two restores of the database |
| `Dispatch.WorkIsInOrder` | crates/runner/src/fence.rs:128-199 | on runners that serve any number of orders at once, with orders delayed, reordered and repeated and databases restored, no work is of a lower epoch than one written before it read the epoch, nor of a lower generation than one written for its object before it read the object |
| `Dispatch.SerialWorkIsInOrder` | crates/runner/src/lib.rs:85-133 | a runner that served one order at a time worked in non-decreasing epochs and, per object, in strictly increasing generations apart from repeating the same order |
| `Dispatch.ConflictNeedsRestore` | crates/runner/src/fence.rs:168-186 | an issued order is refused as a generation conflict only over an order numbered on another side of a restore |
| `Dispatch.PassingIsServedExactlyWhen` | crates/runner/src/lib.rs:85-133 | an order served on its own is worked on and recorded if and only if it passes the fence, with the memory the fence's decision leaves; a refused one leaves no trace |
| `Dispatch.HolderNamesTheRow` | bentod/src/runners.rs:382-399 | in every run in which nobody else touches the lease, the controller that took it goes on holding exactly the lease in the row, however often it renews |
| `Dispatch.FrontendNamesTheRow` | bentod/src/runners.rs:382-399 | a frontend numbers an order exactly if the row has a lease when it reads it, and names that lease; what it gave up is never numbered |
| `Dispatch.ReleasedIsTakenNext` | crates/store/src/runners.rs:245-256 | a released lease goes to the next process that asks, which holds what the row says; the one before cannot renew |
| `Dispatch.DeadTaskNeverEnds` | crates/runner/src/lib.rs:85-133 | work that died before it ended never ends, and the order can be served again |
| `Dispatch.RestoredAboveIsUnderFloor` | crates/store/src/runners.rs:160-184 | in every run from empty counters, the next number is above all orders of an object whichever backup is restored, if and only if they all lie under the floor of the epoch |
| `Dispatch.RestoredAboveExactlyWhen` | crates/store/src/runners.rs:160-184 | that makes it necessary that the epoch is above every epoch the orders of the object named, and sufficient while they are no more than an epoch has room for |
| `Dispatch.RestoreRepeatsANumber` | crates/store/src/runners.rs:160-184 | a run in which a restore leads to two orders with one object, epoch and generation that want different things |
| `NetworkSync.Controller.NoteBootId` | bentod/src/runners.rs:258-270 | only a different non-empty boot identifier drops the cached digest, and only of that host |
| `NetworkSync.Controller.SyncHost` | bentod/src/runners.rs:279-338 | skips exactly on an equal digest, even with nowhere to send to; records a digest exactly on an acknowledged send; leaves the cache alone on every failure |
| `NetworkConvergence.RunKeepsInv` | bentod/src/runners.rs:795-951 | every run of polls, sends under any lease, sends of replaced controllers, lost and late orders, orders served at once, reboots, restarts and passing time keeps the relation of orders, fence memory, machine and cache |
| `NetworkConvergence.CacheIsSoundExactlyWhen` | bentod/src/runners.rs:258-338 | in every run the machine holds a description with a digest and keeps it whatever still arrives, ends, breaks or dies, if and only if the last work to end in this boot applied that digest and no order sent or under way can still get through the questions before it |
| `NetworkConvergence.SerialCacheIsSoundExactlyWhen` | bentod/src/runners.rs:258-338 | for the cached digest on a machine that served one order at a time in this boot the first condition becomes: no work ended after that on the acknowledged order |
| `NetworkConvergence.OneTickIsEnoughExactlyWhen` | bentod/src/runners.rs:872-951 | after a `sync_host` that ended well the machine holds the computed description for good under the same condition; if the controller sent nothing after the acknowledged order, which every tick that sent meets, nothing still to come gets through and without overlap the condition is met |
| `NetworkConvergence.RebootForcesResend` | bentod/src/runners.rs:258-270 | once a new boot is noted in which nothing was applied, no digest at all is skipped |
| `NetworkConvergence.RestartForcesResend` | bentod/src/runners.rs:229-248 | in every run after a restart, until a machine has answered, nothing is skipped and no sync has ended well |
| `NetworkConvergence.ReplacedIsLetThrough` | crates/runner/src/fence.rs:128-134 | what a replaced controller still sends is let through by every machine whose fence it passes |
| `NetworkConvergence.OtherOrderFencesOlderEpochs` | crates/runner/src/fence.rs:128-134 | an order for another object with a higher epoch stops every older-epoch order for the network at its first question |
| `NetworkConvergence.DroppedChangesNothing` | crates/runner/src/lib.rs:85-133 | an order that was dropped changes nothing any more, however far it had come |
| `NetworkConvergence.LostAnswerThenRevertSkipsWrongly` | bentod/src/runners.rs:279-338 | a run in which a skip reports success while the machine holds another description |
| `NetworkConvergence.OverlappedServiceBreaksTheCache` | crates/runner/src/lib.rs:85-133 | a run in which a slow order ends after a newer acknowledged one, with nothing sent since |
| `NetState.CollectRemoteSlots` | bentod/src/netstate.rs:31-72 | one route entry for each settled slot of another machine with an underlay address, in row order |
| `NetState.GroupInstances` | bentod/src/netstate.rs:74-101 | the grouped instances of each owner are exactly this machine's rows of that owner with an address |
| `NetState.CollectUsers` | bentod/src/netstate.rs:103-121 | draining the groups gives each valid user its own instances |
| `NetState.CollectManagement` | bentod/src/netstate.rs:136-155 | the sorted list of all parsed endpoint and underlay addresses without repeats |
| `NetState.BuildMachineNetwork` | bentod/src/netstate.rs:22-171 | the loops compute `Describe`, the description the laws below are about |
| `NetStateLaws.RowOrderDoesNotMatter` | bentod/src/netstate.rs:157-162 | permuting host, slot and user rows gives an identical description |
| `NetStateLaws.InstanceOrderStaysInside` | bentod/src/netstate.rs:74-101 | permuting instance rows changes only the order inside one user's list |
| `NetStateLaws.ManagementIsEveryAddressOnce` | bentod/src/netstate.rs:136-155 | every machine gets the same strictly ascending list, holding exactly the addresses of all hosts |
| `NetStateLaws.UsersOnEveryMachine` | bentod/src/netstate.rs:103-121 | a machine's description carries exactly the users whose network is one of the /24s the private range is made of, at the place that network has in the range, each with that machine's instances of that user in row order |
| `NetStateLaws.IndexIsPlaceExactlyWhen` | crates/network/src/subnet.rs:62-97 | in a range that is a plan, the index of a network is found and is k if and only if the network is a /24 that starts 256 k addresses after the start of the range, and k is a place the range has |
| `NetStateLaws.EntriesAreRows` | bentod/src/netstate.rs:74-101 | an entry stands under a user if and only if it is a row of this machine and that user with an address; a row that is off opens nothing, any other its port, or 80 if it has none, and the high ports |
| `NetStateLaws.DescriptionIsSorted` | bentod/src/netstate.rs:157-171 | users are in order of their index, remote slots in order of their number, range and division are the deployment's |
| `NetStateLaws.FrontendsAreTheController` | bentod/src/netstate.rs:122-135 | an address is permitted as a frontend if and only if it is the controller's underlay address and this is another machine |
| `NetStateLaws.InstancesArePartitioned` | bentod/src/netstate.rs:74-121 | over any set of machines each valid instance is published exactly once, on its own host under its owner, and nothing else is |
| `Forwarding.RoutesOfUser` | crates/network/src/machine.rs:111-147 | the inner loop gives one user's routes in slot order and fails exactly when one does not fit |
| `Forwarding.Routes` | crates/network/src/machine.rs:111-147 | the routes are exactly those of each user and remote slot; it fails exactly on a prefix or slot that does not fit |
| `Forwarding.SlotPrefixCovers` | crates/network/src/slot.rs:54-95 | a slot's prefix covers exactly the addresses of the user's network with that slot number |
| `Forwarding.SlotPrefixIsPart` | crates/network/src/slot.rs:54-95 | a slot's prefix is the slot-th of the equal parts of the user's 256 addresses: 256, 128, 64 or 32 of them |
| `Forwarding.ConsistentIsRoutable` | crates/network/src/machine.rs:111-147 | in a consistent deployment `Routes` succeeds on every machine |
| `Forwarding.SendsByRow` | crates/network/src/machine.rs:111-147 | a machine can install its routes, and forwards an address to a hop if and only if user networks are divided, the address is a guest's and the row of its slot says so |
| `Forwarding.ReachedInOneHop` | bentod/src/netstate.rs:34-72 | a settled slot with a reachable owner is sent by every other machine to the owner and only there if networks are divided, nowhere if a network is one slot, and the owner has no route for it |
| `Forwarding.UnreachableIsRoutedNowhere` | bentod/src/netstate.rs:43-63 | a moving slot, or one whose owner has no address, is routed by no machine |
| `Forwarding.ForwardingNeverLoops` | bentod/src/netstate.rs:34-72 | the next hop belongs to exactly one host, another one, and that host sends the address nowhere |
| `Checksums.FormsAgree` | bentod/src/runnerd.rs:537-552 | the reported, stored and sent forms of a version all read as the same address |
| `Checksums.AddressExactlyWhen` | bentod/src/runnerd.rs:537-552 | a checksum is read as an address if and only if it is sixty-four hexadecimal digits, bare or after one of the two prefixes, and it is read as those digits in lower case |
| `ImageFetch.Download` | bentod/src/runnerd.rs:559-600 | hasher input and file bytes agree, the size is their number or 2^64 - 1 if that is less, and it succeeds exactly when every chunk was stored, flushed and synced |
| `ImageFetch.Directory.FetchInto` | bentod/src/runnerd.rs:559-621 | success adds exactly the image named by the content; failure leaves every image name as it was |
| `ImageFetch.Directory.EnsureImage` | bentod/src/runnerd.rs:191-223 | a held version is never fetched; every answer names a file that is there with that content; a malformed version is refused |
| `ImageFetch.NameIsProof` | bentod/src/runnerd.rs:559-621 | with any number of concurrent fetches, failures, process deaths and power cuts, every image name has complete synced content hashing to it |
| `ImageFetch.HasherMatchesFile` | bentod/src/runnerd.rs:559-600 | at every moment of every run each fetch in flight has hashed exactly what its file holds |
| `ImageFetch.FetchPublishesWhatItReceived` | bentod/src/runnerd.rs:559-621 | among any other fetches, one that is received, synced and renamed leaves exactly one more name, that of the hash of all its chunks in order, and no temporary one |
| `ImageFetch.FailedFetchPublishesNothing` | bentod/src/runnerd.rs:559-621 | one that fails leaves all names as they were, apart from its temporary one if that could not be removed |
| `ImageFetch.PartialWriteFails` | bentod/src/runnerd.rs:559-600 | a write that stored a part of a chunk ends the fetch like any failure, with that part in its file |
| `ImageFetch.DeadProcessPublishesNothing` | bentod/src/runnerd.rs:559-621 | after the process died nothing that was under way can be published |
| `ImageFetch.CutSparesExactlySynced` | bentod/src/runnerd.rs:559-621 | a power cut can change a file's content if and only if it was not synced, and can leave an image name if and only if some rename made it, or no name at all |
| `ImageLoss.FileIsCertainExactlyWhen` | bentod/src/runnerd.rs:559-621 | over all runs, an image is there for every way the power cuts may have turned out if and only if it was published after the last of them |
| `ImageSync.PreferredVersion` | bentod/src/runners.rs:190-201 | a version is found exactly when one is recorded for the image; it is a recorded one, and the current one if that is held |
| `ImageSync.Record` | crates/store/src/runners.rs:1526-1546 | recording adds one version and never removes another |
| `ImageSync.Controller.Ensure` | bentod/src/runners.rs:95-156 | one request never takes a file from a record, gives every new record its file, and leaves files and records unchanged if the version asked for is there |
| `ImageSync.Controller.SyncHost` | bentod/src/runners.rs:77-92 | whatever was lost before, only images without a record or without the file of their preferred version are fetched; when none is lacking the pass changes nothing; records that all have files keep them; a pass that is answered and succeeds leaves every image with a file on record |
| `ImageSync.BackedLacksExactlyWhen` | bentod/src/runners.rs:190-201 | while every record has its file, an image is lacking if and only if it has no record |
| `ImageSync.RefetchSettlesExactlyWhen` | bentod/src/runners.rs:95-156 | a fetch makes up for a lost file if and only if it brought the current version back or the current version is not a record without a file |
| `ImageRuns.MissingWasLost` | bentod/src/runners.rs:77-156 | in every run of passes, single requests, allowlist changes and power cuts, a record without its file lost it in a power cut and has not had it since |
| `ImageRuns.RecordedIsKeptExactlyWhen` | bentod/src/runners.rs:77-156 | a pass that read a record of an image asks for a version that is there, and changes neither files nor records, if and only if no power cut lost that file for good |
| `RequestDigest.Hasher.DigestField` | bentod/src/runners.rs:185-188 | appends the length-prefixed field to what was hashed so far |
| `RequestDigest.Hasher.DigestRequest` | bentod/src/runners.rs:158-183 | the bytes hashed for a request are its `Encode` |
| `RequestDigest.RequestReadsBack` | bentod/src/runners.rs:158-188 | every request is decoded from its bytes, whatever follows them |
| `RequestDigest.RequestsAreUniquelyDecodable` | bentod/src/runners.rs:158-188 | two requests with the same bytes, or one a prefix of the other, are equal, at every length width |
| `RequestDigest.SourceRequestsAreUniquelyDecodable` | bentod/src/runners.rs:158-188 | two requests that fit in memory have the same bytes on a 64-bit machine, or one a prefix of the other's, only if they are equal |
| `Firewall.Cache.Reload` | bentod/src/firewall.rs:45-62 | success, cached text and kernel table after one reload, for every way building and applying can end |
| `Firewall.SkipAfterLandedFailure` | bentod/src/firewall.rs:45-62 | three reloads after which the last succeeds with a kernel table that differs from the cached text |
| `Firewall.SuccessfulReloadIsFresh` | bentod/src/firewall.rs:45-62 | in every run each table a successful reload read is no older than its call nor than anything an earlier success read, and unless an apply failed since the last success the kernel holds that rendering |
| `Firewall.QuietReadIsOneVersion` | bentod/src/firewall.rs:71-87 | parts read while the database stood still are one version |
| `Firewall.LockRemembersTheCall` | bentod/src/firewall.rs:45-62 | however long it waits for the lock and whatever happens meanwhile, a reload answers for the database version that was current when it was called |
| `Firewall.ReloadInstallsChange` | bentod/src/firewall.rs:45-62 | after every run, a database change and one undisturbed reload leave the new ruleset in the cache and in the kernel, unless the cache already had it and an apply had failed |
| `Firewall.CacheIsRightExactlyWhen` | bentod/src/firewall.rs:45-62 | the cached text is what the kernel holds, for every way failed applies may have turned out, if and only if none failed after the last success |
| `LeaseRenewal.Renew` | bentod/src/serve.rs:110-147 | the timed loop publishes and cancels as `After` says |
| `LeaseRenewal.CancelledIsFinal` | bentod/src/serve.rs:110-147 | after a failed renewal nothing is published and cancellation stays |
| `LeaseRenewal.CancelledExactlyWhen` | bentod/src/serve.rs:110-147 | the loop is cancelled if and only if some renewal failed |
| `LeaseRenewal.FiringsAreSpaced` | bentod/src/serve.rs:34-57 | the next tick fires ten seconds after this one, earlier by this one's lateness if that is at most five milliseconds, later only by a step that is still running and its own lateness |
| `LeaseRenewal.LeaseUntilNext` | bentod/src/serve.rs:34-57 | each published lease outlives the publication of the next by the margin |
| `LeaseRenewal.PublishedLeaseIsLive` | bentod/src/serve.rs:34-57 | at every moment up to the next publication the published lease has at least the margin left, late ticks and renewals of any length included; punctual ticks and renewals of up to ten seconds leave ten seconds |
| `LeaseRenewal.RenewalFindsLiveRow` | bentod/src/serve.rs:110-147 | while the margin is positive the next turn finds its own row live and renews it if and only if the expiry is not misread as text; a margin of a second is enough |
| `LeaseRenewal.MarginIsExact` | bentod/src/serve.rs:34-57 | a rest of the lease can be promised for all runs if and only if it is at most the time to live less the longer of period and renewal, less lateness and renewal |
| `Series.Ring.PushPoint` | bentod/src/metrics.rs:61-66 | a full ring drops its oldest point for the new one |
| `Series.Ring.PointsInside` | bentod/src/metrics.rs:69-76 | the loop selects exactly the points of the window, in order |
| `Series.WindowIsSubsequence` | bentod/src/metrics.rs:69-76 | a window is the points at strictly increasing places, and a place is among them if and only if its point is not older than the window is wide |
| `Series.KeptIsNewest` | bentod/src/metrics.rs:61-66 | after any pushes the ring is the newest 2880 of them, in order |
| `Series.RingAnswersLikeLogExactlyWhen` | bentod/src/metrics.rs:58-76 | for readings in time order the ring answers a window like the whole log if and only if nothing inside the window was dropped |
| `Series.WindowIsCoveredExactlyWhen` | bentod/src/metrics.rs:46-76 | for all logs of readings an interval apart the window is answered in full if and only if it is narrower than a day plus the age of the newest reading |
| `CpuSampler.InstanceState.RecordInstance` | bentod/src/metrics.rs:222-252 | baseline, rate and ring always are those of all readings so far |
| `CpuSampler.CpuTimeIsConserved` | bentod/src/metrics.rs:222-252 | rate times elapsed over all samples is the sum of last minus first counter over the maximal unbroken runs, with one sample fewer than readings in each |
| `CpuSampler.OnlyRestartsCostPoints` | bentod/src/metrics.rs:222-252 | at increasing times there are readings minus one minus backward steps samples |
| `CpuSampler.PercentagesAreBounded` | bentod/src/metrics.rs:222-252 | every percentage lies between 0 and 100 and no rate is negative |
| `CpuSampler.PercentageIsShare` | bentod/src/metrics.rs:222-252 | a percentage is exactly the share of the time all processors had that was spent, cut to 100 if and only if more was spent than there was |
| `CpuSampler.SampleIsOfNeighbours` | bentod/src/metrics.rs:222-252 | every sample is that of two successive readings between which the counter did not go back and time went on |
| `Sessions.SessionStore.DeleteExpired` | crates/auth/src/session.rs:50-58 | keeps exactly the sessions that expire later |
| `Sessions.SessionStore.NewSession` | crates/auth/src/session.rs:81-96 | stores a session that can be looked up at once exactly when its time to live is positive |
| `Sessions.SessionStore.Lookup` | crates/auth/src/session.rs:98-109 | returns exactly a live session and removes an expired one it met |
| `Sessions.SweepingIsUnobservable` | crates/auth/src/session.rs:50-109 | in every run with a clock that does not go back, taking out all sweeps changes no lookup result |
| `Sessions.AnswersAreLive` | crates/auth/src/session.rs:98-109 | no lookup of any run returns a session at or past its expiry |
| `Sessions.StoredIsFoundExactlyWhile` | crates/auth/src/session.rs:81-109 | in every run that neither replaces it nor logs it out, a stored session is found, unchanged, if and only if its expiry has not come |
| `Sessions.LoggedOutIsGone` | crates/auth/src/session.rs:116-133 | in every run after a logout the session is not found until one is stored under its identifier |
| `Sessions.LookupDisturbsNothing` | crates/auth/src/session.rs:98-109 | the removal a lookup makes changes no lookup at that moment or later |
| `Sessions.SweepIsInvisibleExactlyWhen` | crates/auth/src/session.rs:50-58 | a sweep is invisible for all tables if and only if its moment is not in the future |
| `SilentLogin.Service.DashboardGate` | crates/auth/src/landing.rs:39-70 | body, cookies and sessions of the answer to a page visit, as `Gate` says |
| `SilentLogin.Service.LoginResponse` | crates/auth/src/oidc.rs:483-497 | redirect and flow cookies of a login the visitor asked for, as `Begin` says; `LoginFlow.ProviderIsToldWhatIsKept` and `LoginFlow.BeginsExactlyWhen` say what that is |
| `SilentLogin.Service.CallbackResponse` | crates/auth/src/oidc.rs:504-645 | every early exit, the new session and all cookies of the callback, as `Finish` says |
| `SilentLogin.Service.LogoutResponse` | crates/auth/src/session.rs:116-133 | logout deletes the session, clears its cookie and sets the probe cookie, as `Leave` says; the laws below say what that is worth |
| `SilentLogin.VisitIsAnsweredExactly` | crates/auth/src/landing.rs:39-70 | a visitor gets the dashboard if and only if the cookie names a stored live session, and goes to the provider if and only if not signed in, with a provider, asking for a page and without the probe cookie; everybody else gets the splash |
| `SilentLogin.CallbackFailsExactlyWhen` | crates/auth/src/oidc.rs:531-645 | each status of a failing callback if and only if its own cause is the first one, in terms of the cookies, the query and the provider's answers; a failure changes neither sessions nor cookies |
| `SilentLogin.LogoutTakesOneSession` | crates/auth/src/session.rs:116-133 | a logout takes away the session its cookie names and no other, leaves no session cookie and lands on the landing page |
| `SilentLogin.LogoutEndsSession` | crates/auth/src/session.rs:116-133 | in every run of any tabs after a logout, no browser with any copy of the cookie reaches the dashboard by it until its identifier is issued anew |
| `SilentLogin.VisitsCountLateFollowUps` | crates/auth/src/landing.rs:39-92 | a redirect chain from any jar goes to the provider once if it probes and once more per follow-up that finds its session over, and then ends |
| `SilentLogin.ChainEnds` | crates/auth/src/oidc.rs:504-645 | with no late follow-up the chain visits the provider at most once and within four hops is at dashboard, splash or error page, whatever the provider answers |
| `SilentLogin.NoProbeBeforeExactlyWhen` | crates/auth/src/landing.rs:39-53 | over all interleavings of tabs without a sign-in, no probe starts before a moment if and only if it is at most 600 s away and the browser holds the probe cookie or a live session until then |
| `SilentLogin.NoProbeAfterLogout` | crates/auth/src/session.rs:116-133 | no tab starts a probe within 600 s of a logout |
| `SilentLogin.NoProbeAfterErrorExactlyWhen` | crates/auth/src/oidc.rs:514-530 | a provider error keeps all tabs from probing for 600 s if and only if the callback takes it as a probe's answer or the browser was guarded anyway |
| `SilentLogin.ErrorEndsProbeExactlyWhen` | crates/auth/src/oidc.rs:512-530 | an error is taken as a probe's answer if and only if some tab's probe is open and started under 600 s ago, whichever flow the error is for |
| `SilentLogin.AnsweredProbesAreSpaced` | crates/auth/src/landing.rs:79-92 | probes answered with an error are at least 600 s apart with no sign-in between, over all interleavings of tabs |
| `SilentLogin.SecondTabGetsAnError` | crates/auth/src/oidc.rs:512-530 | of two tabs that probe, the second refusal is an error page |
| `SilentLogin.SlowRefusalProbesAgain` | crates/auth/src/landing.rs:79-109 | a refusal that takes the whole interval is an error page, and the next visit probes at once |
| `LoginFlow.CookiesAreTheOpenFlow` | crates/auth/src/oidc.rs:455-497 | after any run of any tabs the flow cookies are exactly those of the last flow begun that no sign-in has closed |
| `LoginFlow.BeginsExactlyWhen` | crates/auth/src/oidc.rs:455-497 | a browser is sent to the provider if and only if there is one and it asks to sign in, or visits a page neither signed in nor marked; without a provider asking to sign in is an error that sets nothing |
| `LoginFlow.ProviderIsToldWhatIsKept` | crates/auth/src/oidc.rs:455-497 | the state and nonce the provider is sent are those the browser keeps, and only a visit asks it to stay silent |
| `LoginFlow.SignsInExactlyWhen` | crates/auth/src/oidc.rs:514-627 | a callback signs in if and only if it answers the flow begun last in this browser, within 600 s and before any other sign-in, with the very state and nonce that flow sent to the provider and a vouched user |
| `LoginFlow.SignInReturnsWhereItBegan` | crates/auth/src/oidc.rs:622-710 | a sign-in redirects to the return path of its own flow if that is on this site, otherwise where the second check of the URL says, and stores one session, of the vouched user |
| `LoginFlow.CallbackIsNotReplayed` | crates/auth/src/oidc.rs:531-645 | after a sign-in no callback signs in until a new flow has begun |
| `Cookies.DecodeEncoded` | crates/auth/src/lib.rs:319-329 | percent decoding undoes encoding for all bytes |
| `Cookies.KeepsExactlyCookieOctets` | crates/auth/src/lib.rs:319-329 | a byte is printed as itself if and only if section 4.1.1 of RFC 6265 allows it in a value and it is not the percent sign |
| `Cookies.EncodedIsCookieOctets` | crates/auth/src/lib.rs:319-329 | everything printed for a value is allowed in a cookie's value by that section |
| `Cookies.DigitsExactlyWhen` | crates/auth/src/lib.rs:327-348 | escapes are written with upper-case digits and read with digits of either case, and nothing else is a digit |
| `Cookies.Utf8ExactlyWhen` | crates/auth/src/lib.rs:331-348 | bytes are taken for text if and only if they are the encoding of some sequence of Unicode scalar values |
| `Cookies.CookiesReadBack` | crates/auth/src/lib.rs:319-348 | cookies printed over any number of header lines are read back as the first value stored under the name |

## Left out

- SQLite itself: every store call is one atomic transaction or a failure; i64 saturation of epochs and generations (above 9.2e12 epochs) is not modelled.
- Two network applies that overlap on one machine: what the one that ends last leaves is taken to be what the machine holds.
- Clocks that go back, and processes that use different times to live for the lease: the lease theorems assume one clock and one time to live, and a runner's clock only moves forward.
- The writing of times as text is the `time` crate's, which is not part of this model: RFC 3339 in UTC, with a fraction that has no trailing zeros and with seconds that sort like numbers.
- A restored database in NetworkConvergence: generations of the network object only go up there; `Dispatch` has the restores.
- Dispatch.WorkIsInOrder: an order's clock, object and outcome are read in one step there, because only the object orders the work; `NetworkConvergence` has them apart.
- Text columns: rows carry the result of parsing addresses, prefixes and numbers, with a failed parse as absent; slot numbers are not negative.
- The private-range checks of a machine network, ruleset rendering and the kernel side of `converge`: only the routes are modelled.
- A second `Firewall` in the SSH process: there is one, and it is the only writer of the table.
- Runners that report an empty boot identifier: the controller learns nothing from them, so convergence is proved for machines whose boots have fresh non-empty identifiers.
- The set of image tasks in flight per host, local image versions found on disk, and ties between records of the same time.
- OIDC discovery, token verification, random tokens, and absolute URLs as return paths: their results are inputs.
- Requests in flight at once in one browser: a request and the storing of its answer's cookies are one step, on one clock in whole seconds.
- HTMX fragment requests, the account link pages and dashboard assets.
- Host processor, memory and storage series, and floating-point rounding: rates are exact reals.
- Instance creation, observation and deletion, the HTTP proxy, the SSH frontend's streams, the command line and the monitor: plumbing around the modelled parts.
