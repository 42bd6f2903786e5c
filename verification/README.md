# Verified core of the catalyrst services

A Dafny model of the stateful and hand-written parts of the catalyrst services, with proofs about all their
inputs, runs and interleavings. `dafny verify dfyconfig.toml` checks the whole project.

| modules | what they model |
|---|---|
| `Ordering`, `Sequences`, `IslandSearch`, `ClusterModel`, `Reclustering`, `Announcements`, `Renaming`, `ClusterRuns`, `Clusters` | grouping archipelago peers into islands, keeping island ids across passes, the peer table, the island index and what subscribers are told |
| `GossipModel`, `Gossip` | the exchange of peer snapshots between nodes over a network that delays, repeats and loses batches |
| `Sockets`, `SocketEffects` | the WebSocket handshake, heartbeats, island notifications and connection generations |
| `Keys`, `Supply`, `Answers`, `BakeQueue`, `Eviction` | single-flight fetching of imposter archives, the bake queue with its parking worker, eviction under a byte budget |
| `Bits`, `Bytes`, `Crc`, `Residue`, `Zlib`, `Png` | the captcha encoder, against the definitions of RFC 1950, RFC 1951 and RFC 2083 |
| `Text`, `Multipart` | searching in strings, and the multipart writer, against a reader after RFC 2046 |
| `Volatility`, `JsonDiff`, `Retry` | the conformance comparison modulo ignore rules, and the retry loop |
| `VoiceTypes`, `PrivateVoice`, `CommunityVoice` | the voice chat tables, driven by joins, leaves, webhooks and sweeps |

How the parts fit together:

* Code that changes state in place is a class (`Cluster`, `GossipBus`, `LockTable`, `Queue`, `Store`, the two
  `VoiceDb`) or a method with a loop. Each is proved to compute a specification function, and the lemmas are about
  that function or about runs of it.
* Collections without an order (hash maps, directory listings, SQL results) are visited in an arbitrary order.
* Clocks, random choices, verdicts of the ban service, replies of servers and failures of renames are inputs.
* Every row below holds for all inputs that its own `requires` allows, and no bound is put on runs.

Where the code and what one would expect of it differ, the code is modelled as it is:

* A search that fills its group leaves the peers still queued without an island (`CapLeavesPeerBehind` is such a
  run). The groups are the connected components exactly when no component exceeds the cap (`GroupsAreComponents`), and
  nobody is left behind, whatever the order of the addresses, exactly when that holds or the cap is at most one
  (`NobodyLeftInAnyOrderIff`, and `EveryoneAssignedUnderAnyNamesIff` for whole passes).
* Two groups split from one island can keep the same id, and the later one overwrites the earlier in the index
  (`PartingSharesId` is such a run). The index is complete exactly when no two groups with members from earlier
  islands would keep the same id (`AllListedIffDistinctOrigins`).
* A cancelled `get` whose rename was already handed to the blocking pool can land a key again. Landings never exceed
  one plus removals plus such renames (`KeyLandsOnce`), and every number of such renames can reach that bound
  (`EveryOrphanCanLand`). A cancelled call can leave an entry in the lock map (`CancelledCallLeavesEntry`), and
  `EveryEntryExplained` says exactly when.
* `is_private_room_active` uses `<` where the sweep uses `<=`. The two differ exactly for rooms whose expired rows
  all reach their time to live at that very millisecond (`SweptButActive`, and `SweptWhileActive` for such a room).
* A join to a room in which the user has no row disconnects the user from the room it was in and connects to nothing.
  `JoinConnectsIffInvited` says so for every table, and `UninvitedJoinEndsCall` is such a run.
* A socket forwards island notifications for the address it carries at any stage, also for one that has only been
  claimed (`EventForwardedIff`, `EventForwardedBeforeWelcome`).
* The expiry of community rooms counts participants only in rooms that have an active moderator, and expires only
  rooms that have none. At one instant it therefore publishes no event at all (`ExpiryIsSilent`). An event needs a
  room to lose its last active moderator between the two queries (`ExpiryPublishes`, `ExpiryCanPublish`).
* The stream-ended event is keyed by community and millisecond, so it is published exactly when that key is new
  (`EndingPublishes`).
* An ignore pattern `name[]` also ignores elements of arrays nested deeper, because only the first bracket of a
  segment is read (`IndexedMatch`).

## Model

| member | source | states |
|---|---|---|
| IslandSearch.SearchKeeps | crates/catalyrst-archipelago/src/cluster.rs:278-300 | from any point of a search: what is found is reachable from the seed, free of duplicates and within the cap, and everything linked to an expanded peer has been visited |
| IslandSearch.GroupsArePartition | crates/catalyrst-archipelago/src/cluster.rs:268-303 | for every cap the groups are non-empty, pairwise disjoint, internally connected and at most max(1, cap) long; each live peer is in a group or left behind, never both, and left behind only next to a full group |
| IslandSearch.SearchFindsComponent | crates/catalyrst-archipelago/src/cluster.rs:278-300 | from a closed set of visited peers, a search whose component fits the cap finds exactly that component |
| IslandSearch.GroupsAreComponents | crates/catalyrst-archipelago/src/cluster.rs:268-303 | the groups are exactly the connected components if and only if no component exceeds the cap, and then nobody is left behind |
| IslandSearch.CrowdLeavesRest | crates/catalyrst-archipelago/src/cluster.rs:287-289 | more mutually linked peers than a cap of at least two form one full group, and exactly the number over the cap is left behind |
| IslandSearch.NobodyLeftInAnyOrderIff | crates/catalyrst-archipelago/src/cluster.rs:268-303 | no visiting order leaves anyone behind if and only if the cap is at most one or no component exceeds it |
| ClusterModel.NoAddressOnTwoIslands | crates/catalyrst-archipelago/src/cluster.rs:342-371 | in a consistent state no address is listed by two islands |
| ClusterModel.RemovePeerIsRemoveSet | crates/catalyrst-archipelago/src/cluster.rs:195-211 | removing a peer unlists it and drops an island that became empty, and touches nothing else |
| ClusterModel.RemoveSetTwice | crates/catalyrst-archipelago/src/cluster.rs:254-266 | removals commute: removing one set of peers and then another is removing their union |
| ClusterModel.RemoveSetKeeps | crates/catalyrst-archipelago/src/cluster.rs:195-211 | removals keep the index consistent and complete |
| ClusterModel.UpsertKeeps | crates/catalyrst-archipelago/src/cluster.rs:168-193 | an upsert keeps the index consistent and complete |
| ClusterModel.UpsertReports | crates/catalyrst-archipelago/src/cluster.rs:168-193 | an upsert records parcel and realm with the later of both heartbeats, keeps the island of the peer and touches no other peer and no island |
| ClusterModel.LastLargestIsLastMaximum | crates/catalyrst-archipelago/src/cluster.rs:319-323 | the island whose id is kept lists at least as many peers as any other that members of the group came from, and more than any offered after it |
| ClusterModel.SizeIsPeers | crates/catalyrst-archipelago/src/cluster.rs:319-323 | in a consistent state an island counts with the number of peers it lists, and one that is gone counts as empty |
| ClusterModel.MintsOnePerNewGroup | crates/catalyrst-archipelago/src/cluster.rs:244-248 | the id counter moves by exactly one for each group none of whose members had an island |
| ClusterModel.ChosenIdComesFromMember | crates/catalyrst-archipelago/src/cluster.rs:315-329 | a group keeps the id that some member carried, or takes one minted just now |
| ClusterModel.AssignGroupsKeeps | crates/catalyrst-archipelago/src/cluster.rs:305-357 | all members of a group share its id, every new island is some group with its exact list and count, and ids two groups share are ids a member of each carried before |
| Reclustering.ReclusterKeeps | crates/catalyrst-archipelago/src/cluster.rs:250-396 | a pass keeps the index consistent, and every id carried after it was carried before or minted by it |
| Reclustering.NearByDistance | crates/catalyrst-archipelago/src/cluster.rs:271-301 | along a row or a column of parcels two peers are near exactly up to the radius |
| Reclustering.NearByDiagonal | crates/catalyrst-archipelago/src/cluster.rs:271-301 | so they are along the diagonals whose steps have the length five |
| Announcements.PassWithoutBansKeepsPeers | crates/catalyrst-archipelago/src/cluster.rs:250-374 | without bans exactly the peers young enough stay, with parcel, realm and heartbeat as they were, and on an island of the index if on any |
| Announcements.PassWithBans | crates/catalyrst-archipelago/src/cluster.rs:376-394 | bans take out exactly the banned who would otherwise move to another island, and change nothing else |
| Announcements.LeftExactly | crates/catalyrst-archipelago/src/cluster.rs:254-394 | a departure is broadcast exactly for those whose heartbeat is older than the timeout and for the banned who would move |
| Announcements.ToldExactly | crates/catalyrst-archipelago/src/cluster.rs:376-394 | a change of island is broadcast exactly for those who move and are not banned, with the new island, the old one and the members of the new one |
| Announcements.EventsWithoutBans | crates/catalyrst-archipelago/src/cluster.rs:250-394 | with nobody banned both can be read off the state before the pass and the one after it |
| Announcements.BannedMovers | crates/catalyrst-archipelago/src/cluster.rs:376-394 | a banned survivor is gone and announced as departed exactly if it would move, and is never told an island |
| Reclustering.ReclusterAssignment | crates/catalyrst-archipelago/src/cluster.rs:250-374 | who survives the pass (heartbeat age at most the timeout), and that a survivor has no island exactly when the search left it behind |
| Reclustering.EveryoneAssigned | crates/catalyrst-archipelago/src/cluster.rs:268-374 | with a cap of at most one, or when no component of near peers exceeds the cap, every peer after the pass has an island |
| Reclustering.CrowdLeavesUnassigned | crates/catalyrst-archipelago/src/cluster.rs:287-374 | of more peers than a cap of at least two, all near one another, exactly as many as exceed the cap end without an island |
| Renaming.EveryoneAssignedUnderAnyNamesIff | crates/catalyrst-archipelago/src/cluster.rs:268-374 | under every renaming of the addresses a pass without bans gives every peer an island, if and only if the cap is at most one or no component of near peers exceeds it |
| Renaming.SomeNamesLeaveOne | crates/catalyrst-archipelago/src/cluster.rs:268-374 | otherwise there are addresses for which a pass leaves a peer without an island |
| Renaming.RenamedConsistent | crates/catalyrst-archipelago/src/cluster.rs:268-269 | the same peers under other addresses are a state the code can be in |
| ClusterRuns.CapLeavesPeerBehind | crates/catalyrst-archipelago/src/cluster.rs:287-289 | a run: three peers arrive on one parcel under a cap of two, and one of them ends without an island |
| Reclustering.SharedIdHidesPeer | crates/catalyrst-archipelago/src/cluster.rs:346-346 | two groups that take one id leave an assigned peer that no island lists |
| Reclustering.AllListedIffDistinct | crates/catalyrst-archipelago/src/cluster.rs:305-374 | after a pass every assigned peer is listed by its island if and only if the groups chose distinct ids |
| Reclustering.AllListedIffDistinctOrigins | crates/catalyrst-archipelago/src/cluster.rs:315-374 | the same read off the state before the pass: no two groups with members from earlier islands have the same largest one |
| ClusterRuns.PartingSharesId | crates/catalyrst-archipelago/src/cluster.rs:319-346 | a run: two peers meet, share an island and part, both groups keep its id and an assigned peer is listed nowhere |
| Reclustering.ReclusterIdempotent | crates/catalyrst-archipelago/src/cluster.rs:250-396 | a second pass at the same instant changes no assignment, mints no id and emits no event, also when groups shared an id or peers were left behind |
| ClusterRuns.EveryRunConsistent | crates/catalyrst-archipelago/src/cluster.rs:168-211 | after every sequence of upserts, removals and passes: listed addresses are live peers of that island, counts equal list lengths, no island is empty; and the index is complete if the last pass chose distinct ids |
| ClusterRuns.HeldIdsWereMinted | crates/catalyrst-archipelago/src/cluster.rs:244-248 | every id ever carried in a run has been minted |
| ClusterRuns.NewIdsNeverHeldBefore | crates/catalyrst-archipelago/src/cluster.rs:244-248 | an id that appears in a step of a run was never carried at any earlier point |
| Clusters.Cluster.RegisterConn | crates/catalyrst-archipelago/src/cluster.rs:107-114 | hands out the next generation and makes it the address's current one |
| Clusters.Cluster.RemovePeerIfConn | crates/catalyrst-archipelago/src/cluster.rs:116-126 | removes the peer exactly when the generation is still the current one |
| Clusters.Cluster.IslandOfPeer | crates/catalyrst-archipelago/src/cluster.rs:128-133 | the island of a peer; all addresses it returns are peers assigned to that island |
| Clusters.Cluster.UpsertAt | crates/catalyrst-archipelago/src/cluster.rs:168-193 | the heartbeat becomes the later of old and new, the island is kept |
| Clusters.Cluster.RemovePeerInPlace | crates/catalyrst-archipelago/src/cluster.rs:195-211 | peer gone and unlisted, empty island dropped, departure sent only if the peer was there |
| Clusters.Cluster.BuildGroups | crates/catalyrst-archipelago/src/cluster.rs:268-303 | the loops with stack and visited set compute `Groups` |
| Clusters.Cluster.AssignIds | crates/catalyrst-archipelago/src/cluster.rs:305-357 | the loop over groups computes the islands, the assignment and the id counter of `AssignGroups` |
| Clusters.Cluster.ReclusterOnce | crates/catalyrst-archipelago/src/cluster.rs:250-396 | the whole pass in place computes `Recluster`, and sends exactly its events, each once |
| GossipModel.ApplyMergesByMaximum | crates/catalyrst-archipelago/src/gossip.rs:129-143 | applying a batch merges heartbeats by maximum, loses nobody and touches no island |
| GossipModel.SnapshotCatchesUp | crates/catalyrst-archipelago/src/gossip.rs:37-57 | in every network, delivering a snapshot newer than the last one accepted brings every peer of the sender with its parcel and realm, less than a second behind because of the truncation to seconds |
| GossipModel.DeliverMerges | crates/catalyrst-archipelago/src/gossip.rs:129-143 | in every network, a batch newer than the last one accepted from its sender is merged at that node: every peer it lists is there with a heartbeat no older than carried or held, its last entry giving parcel and realm, unlisted peers and all other nodes are unchanged, and its number is remembered |
| GossipModel.LocalStepsDo | crates/catalyrst-archipelago/src/cluster.rs:168-211 | a heartbeat received by a node reports the peer there, a departure removes it there |
| GossipModel.EveryRunBounded | crates/catalyrst-archipelago/src/gossip.rs:129-167 | in every run of any number of nodes no heartbeat held or in flight exceeds the latest one some node recorded itself |
| GossipModel.SilentPeerIsEvicted | crates/catalyrst-archipelago/src/gossip.rs:129-167 | a pass later than the last heartbeat recorded anywhere plus the timeout leaves no such peer at that node, however batches were delayed, repeated or lost |
| GossipModel.DeliveredOnce | crates/catalyrst-archipelago/src/gossip.rs:130-136 | after a batch reached a node, that batch and every older one of its sender change nothing there, whatever happens in between |
| GossipModel.EveryRunNumbersApart | crates/catalyrst-archipelago/src/gossip.rs:145-167 | a sender's batches carry different numbers, so a number identifies a batch |
| Gossip.GossipBus.ApplyBatch | crates/catalyrst-archipelago/src/gossip.rs:129-143 | the loop over peers computes `Apply` on the node, and reports how many peers were applied |
| Gossip.GossipBus.NextBatch | crates/catalyrst-archipelago/src/gossip.rs:145-167 | a push lists every peer once under the next number, and takes no number when there is no peer |
| Sockets.EveryRunSound | crates/catalyrst-archipelago/src/ws.rs:86-276 | in every run each authenticated socket holds the generation its address was registered with, it is current exactly if nobody registered later, and generations differ between sockets |
| Sockets.CloseRemovesOnlyOwnPeer | crates/catalyrst-archipelago/src/ws.rs:96-276 | whatever closes an open socket, failed sends and protocol errors included, its peer is removed if and only if the socket is authenticated and no later connection registered that address |
| Sockets.GenerationsIncrease | crates/catalyrst-archipelago/src/ws.rs:165-177 | a step registers at most one generation, one above all earlier ones, and it goes to one socket |
| Sockets.PresenceNeedsHandshake | crates/catalyrst-archipelago/src/ws.rs:185-230 | presence is written only by sockets that completed the handshake, for the address they registered |
| Sockets.NoRepeatedNotification | crates/catalyrst-archipelago/src/ws.rs:201-262 | no socket sends two consecutive island notifications with the same id |
| Sockets.EventForwardedIff | crates/catalyrst-archipelago/src/ws.rs:240-264 | an open socket forwards an island event exactly if it is for the address it carries and not the island sent last |
| Sockets.EventForwardedBeforeWelcome | crates/catalyrst-archipelago/src/ws.rs:124-140 | a run: so it does once an address has been claimed, before the handshake is complete |
| SocketEffects.ClaimIsChallenged | crates/catalyrst-archipelago/src/ws.rs:107-140 | a first message claiming an address leads to the challenge, and registers nothing |
| SocketEffects.SignerIsWelcomed | crates/catalyrst-archipelago/src/ws.rs:141-184 | an accepted signature completes the handshake for the signer under the next generation, which becomes the current one of its address |
| SocketEffects.OpenIffStays | crates/catalyrst-archipelago/src/ws.rs:92-276 | exactly which inputs end a connection at which stage |
| SocketEffects.CompletedIgnores | crates/catalyrst-archipelago/src/ws.rs:185-190 | once the handshake is complete other messages, and heartbeats without a position, change nothing |
| SocketEffects.HeartbeatDoes | crates/catalyrst-archipelago/src/ws.rs:185-237 | from any state a heartbeat reports the peer; a first one runs a pass if the peer is on no listed island, and then either tells the peer its island, exactly once, or puts it out if it is banned; later ones tell nothing |
| SocketEffects.HeartbeatReportsPeer | crates/catalyrst-archipelago/src/ws.rs:185-193 | without a pass, a ban or a failed send the cluster afterwards is the earlier one with the peer reported |
| Supply.EveryRunLocked | crates/catalyrst-bvimposters/src/supply.rs:84-98 | in every interleaving, cancellations included, every live handle of a key is the lock in the map and a mutex is held exactly by the task in its section |
| Supply.OneTaskPerKeyInSection | crates/catalyrst-bvimposters/src/supply.rs:43-58 | at most one task per key is between taking and giving up the guard |
| Supply.SomeCallCanGoOn | crates/catalyrst-bvimposters/src/supply.rs:35-61 | in every run, while a call is neither finished nor cancelled, it or the call that holds the mutex it waits for can go on |
| Supply.KeyLandsOnce | crates/catalyrst-bvimposters/src/supply.rs:35-82 | landings of a key are at most one plus its removals plus the renames left running by cancelled calls |
| Supply.CancelledRenameLandsTwice | crates/catalyrst-bvimposters/src/supply.rs:63-82 | the last term is needed: without any removal a key can land twice |
| Supply.EveryOrphanCanLand | crates/catalyrst-bvimposters/src/supply.rs:63-82 | the bound is reached: for every n a run without removals in which n cancelled renames and one call land n plus one times |
| Supply.EveryEntryExplained | crates/catalyrst-bvimposters/src/supply.rs:84-98 | with no live handle of a key, its entry is left in the map exactly when the last handle was let go by a cancelled call |
| Supply.LockMapEmptyWhenDone | crates/catalyrst-bvimposters/src/supply.rs:88-98 | when no call is cancelled the lock map is empty once all calls have finished |
| Supply.CancelledCallLeavesEntry | crates/catalyrst-bvimposters/src/supply.rs:43-59 | a single cancelled call leaves its entry behind |
| Supply.OnlyVerifiedServed | crates/catalyrst-bvimposters/src/supply.rs:35-64 | whatever is stored or served for a key passed the zip check for that key, was there at the start or was installed by another writer (a bake's harvest, seeding) |
| Answers.AnsweredExactly | crates/catalyrst-bvimposters/src/supply.rs:35-64 | in every run, a call answers the stored archive exactly if one of its lookups found it, the downloaded one exactly if its rename succeeded, a miss exactly if its download found none, and a failure exactly if the download, the zip check, the write or the rename failed |
| Answers.AnswerFollowsWhatWasSeen | crates/catalyrst-bvimposters/src/supply.rs:35-82 | at every point of a run the step a call has reached, and its answer, are those that what it has seen so far calls for |
| Answers.RenamedWasDownloaded | crates/catalyrst-bvimposters/src/supply.rs:66-82 | what a call renames into the store is what its own download gave, and it passed the zip check for its key |
| Supply.EntryFollowsHandles | crates/catalyrst-bvimposters/src/supply.rs:88-98 | after a release the entry is there exactly when another call still holds a handle of the key |
| Supply.LockTable.LockForKey | crates/catalyrst-bvimposters/src/supply.rs:84-86 | returns the lock of the key's entry, created if absent, as the step of a run |
| Supply.LockTable.ReleaseKey | crates/catalyrst-bvimposters/src/supply.rs:88-98 | drops the handle, then the entry if its reference count is one, as the step of a run |
| BakeQueue.EveryRunOrderly | crates/catalyrst-bvimposters/src/bake.rs:50-94 | in every interleaving the queue is free of duplicates, within its depth and never holds the tile being baked, tiles are baked in the order accepted, and an idle worker with work queued has a permit or a notification coming |
| BakeQueue.QueuedWorkIsPickedUp | crates/catalyrst-bvimposters/src/bake.rs:60-81 | no wake-up is lost: once the owed notifications are made, a worker with work queued is not idle |
| BakeQueue.QuietWorkerParks | crates/catalyrst-bvimposters/src/bake.rs:60-81 | with nothing queued and no notification owed the worker takes the permit if there is one, looks once more and parks |
| BakeQueue.Queue.EnqueueTile | crates/catalyrst-bvimposters/src/bake.rs:50-62 | accepts a tile exactly if it is neither queued nor in flight and there is room |
| BakeQueue.Queue.Take | crates/catalyrst-bvimposters/src/bake.rs:72-81 | takes the oldest tile and marks it in flight, or finds the queue empty |
| BakeQueue.Queue.Done | crates/catalyrst-bvimposters/src/bake.rs:92-92 | nothing is in flight after a bake |
| Eviction.SortKeeps | crates/catalyrst-bvimposters/src/store.rs:153-160 | the sort by age is a permutation in order of modification time |
| Eviction.SortIsStable | crates/catalyrst-bvimposters/src/store.rs:153-160 | files of one modification time keep the order in which they were listed, and none is lost or doubled |
| Eviction.SweepIsFair | crates/catalyrst-bvimposters/src/store.rs:158-175 | also when renames fail: only files at least an hour old go, it ends within budget or with nothing movable left, and no removal was one too many |
| Eviction.SweepPartitions | crates/catalyrst-bvimposters/src/store.rs:158-175 | every file is removed or kept, and bytes are conserved |
| Eviction.EvictsShortestPrefix | crates/catalyrst-bvimposters/src/store.rs:153-175 | when renames succeed, what goes is the shortest prefix in order of age that meets the budget, cut short at the first file younger than an hour |
| Eviction.KeptAreLeft | crates/catalyrst-bvimposters/src/store.rs:153-175 | the files kept are exactly those left in the table |
| Eviction.Store.Scan | crates/catalyrst-bvimposters/src/store.rs:136-151 | lists every file once, in arbitrary order |
| Eviction.Store.EvictPass | crates/catalyrst-bvimposters/src/store.rs:153-175 | the loop removes the files of the sweep and returns the sum of what remains |
| Crc.DivisionTheorem | crates/catalyrst-credits/src/captcha.rs:128-141 | `Remainder` is a remainder modulo the polynomial of section 3.4 of RFC 2083: the message is a multiple of it plus the remainder |
| Crc.RemainderUnique | crates/catalyrst-credits/src/captcha.rs:128-141 | and it is the only one: any 32 coefficients that complete a multiple of the polynomial to the message are the remainder |
| Crc.FeedDivides | crates/catalyrst-credits/src/captcha.rs:128-141 | clocking a message through the shift register is dividing it, followed by 32 zero bits |
| Crc.TailBits | crates/catalyrst-credits/src/captcha.rs:134-134 | the loop's constant is that polynomial with its bits reversed |
| Crc.StepRegister | crates/catalyrst-credits/src/captcha.rs:132-138 | one turn of the inner loop clocks one zero bit |
| Crc.AbsorbByte | crates/catalyrst-credits/src/captcha.rs:130-139 | one byte clocks its eight bits, least significant first |
| Crc.ComputeCrc32 | crates/catalyrst-credits/src/captcha.rs:128-141 | the loop computes the division |
| Crc.BurstChangesRegister | crates/catalyrst-credits/src/captcha.rs:128-141 | messages that differ only inside 32 consecutive bits leave different registers |
| Crc.BurstChangesCrc | crates/catalyrst-credits/src/captcha.rs:128-141 | byte strings that differ only inside four consecutive bytes have different checksums |
| Residue.ResidueIsFixed | crates/catalyrst-credits/src/captcha.rs:128-141 | for all data, feeding the data and then its checksum, least significant byte first, leaves one and the same register |
| Residue.ResidueValue | crates/catalyrst-credits/src/captcha.rs:128-141 | that register is 0xdebb20e3, the residue of CRC-32 |
| Residue.TimesMeets | crates/catalyrst-credits/src/captcha.rs:128-141 | multiplying by the CRC polynomial, coefficient by coefficient from its fifteen powers |
| Zlib.ComputeAdler32 | crates/catalyrst-credits/src/captcha.rs:117-126 | the running sums stay within 32 bits and end as the closed form: one plus the sum, and the weighted sum, modulo 65521 |
| Zlib.AdlerIsStandard | crates/catalyrst-credits/src/captcha.rs:117-126 | the closed form is the checksum that section 8.2 of RFC 1950 defines by running sums |
| Zlib.AdlerDetectsOneByte | crates/catalyrst-credits/src/captcha.rs:117-126 | changing one byte always changes the checksum |
| Zlib.ZlibStore | crates/catalyrst-credits/src/captcha.rs:93-115 | the loop writes the header, the stored blocks and the trailer |
| Zlib.BlocksFit | crates/catalyrst-credits/src/captcha.rs:98-111 | exactly the last block is final, all others hold 65535 bytes and it no more, together they hold the data |
| Zlib.InflateStored | crates/catalyrst-credits/src/captcha.rs:93-115 | a decoder after section 2.2 of RFC 1950 and section 3.2.4 of RFC 1951 recovers exactly the data, with nothing left over |
| Png.ReadAllEmitted | crates/catalyrst-credits/src/captcha.rs:83-91 | a reader that checks lengths and checksums recovers any list of chunks |
| Png.WriteChunk | crates/catalyrst-credits/src/captcha.rs:83-91 | appends length, kind, data and the checksum of kind and data |
| Png.ReadScanned | crates/catalyrst-credits/src/captcha.rs:38-61 | a reader of unfiltered true-colour scan lines recovers the rows |
| Png.RenderRaw | crates/catalyrst-credits/src/captcha.rs:38-61 | the pixel loop with its generator writes the scan lines of the picture |
| Png.RenderPng | crates/catalyrst-credits/src/captcha.rs:31-81 | the file has three chunks that read back, and a reader after section 3.2 of RFC 2083 recovers the picture with the answer's marker column and seed |
| Png.MarkerWithinTolerance | crates/catalyrst-credits/src/captcha.rs:13-22 | reading the marker's column back gives a percentage from 0 to 100 within 0.32, less than the tolerance of 4; below 0 it gives 0, above 100 it gives 100 |
| Png.SeedPerPercent | crates/catalyrst-credits/src/captcha.rs:34-36 | the noise starts from a seed that moves by an odd constant per whole percent, whatever the fraction |
| Png.GeneratorPerState | crates/catalyrst-credits/src/captcha.rs:24-29 | the generator is affine in its state, with the two constants of the source |
| Png.NoiseHoldsDraw | crates/catalyrst-credits/src/captcha.rs:45-47 | a noise pixel holds the lowest 21 bits of its draw, seven in each colour from the lowest in red |
| Png.AnswerDetermined | crates/catalyrst-credits/src/captcha.rs:9-61 | different whole percentages have different pictures |
| Png.DarkIffNearMarker | crates/catalyrst-credits/src/captcha.rs:45-58 | whatever the noise, the dark colour marks exactly the five columns around the marker and white the two on either side |
| Png.MarkerDetermined | crates/catalyrst-credits/src/captcha.rs:31-61 | pictures with the same pixels have the same marker |
| Multipart.MultipartBody | crates/catalyrst-contract-gate/src/lib.rs:131-157 | the loop computes the body, and the content type names the boundary |
| Text.FindThere | crates/catalyrst-contract-gate/src/lib.rs:131-157 | a delimiter that cannot overlap itself is first found right after any text free of it |
| Multipart.PartsReadBack | crates/catalyrst-contract-gate/src/lib.rs:131-157 | a reader after section 5.1.1 of RFC 2046 returns exactly the parts, when all are clean |
| Multipart.RoundTripIffClean | crates/catalyrst-contract-gate/src/lib.rs:131-157 | for any boundary without CR the reader returns exactly the parts if and only if no name or filename has a quote or CRLF, no content type has CRLF, and no data after CRLF holds the delimiter |
| Multipart.GateRoundTrip | crates/catalyrst-contract-gate/src/lib.rs:131-157 | the same for the writer's own boundary |
| Volatility.Tokenize | crates/catalyrst-conformance/src/volatility.rs:163-179 | the loop computes the non-empty stretches between dots |
| Volatility.SegmentsOfJoin | crates/catalyrst-conformance/src/volatility.rs:163-179 | splitting undoes joining with dots |
| Volatility.GlobMatch | crates/catalyrst-conformance/src/volatility.rs:137-161 | the loops decide `GlobMatches` |
| Volatility.GlobOnEveryPath | crates/catalyrst-conformance/src/volatility.rs:137-161 | for every pattern and path: all segments match pairwise, or all but the first when the path has a dot and does not start with one |
| Volatility.GlobOnSegments | crates/catalyrst-conformance/src/volatility.rs:137-161 | on joined segments: a pattern matches exactly if all match pairwise, or all but the path's first |
| Volatility.PatternsNormalise | crates/catalyrst-conformance/src/volatility.rs:163-179 | extra dots in a pattern make no difference |
| Volatility.IndexedMatch | crates/catalyrst-conformance/src/volatility.rs:181-207 | segments with an index match exactly if the names do (or `*`) and the first indices do (or the pattern's is empty), deeper indices being ignored |
| Volatility.PlainMatch | crates/catalyrst-conformance/src/volatility.rs:181-207 | a segment with an index never matches one without, either way round |
| Volatility.MemberIgnoredByName | crates/catalyrst-conformance/src/diff.rs:63-67 | a member is ignored everywhere exactly if its own name is listed |
| Volatility.ElementIgnoredWithArray | crates/catalyrst-conformance/src/diff.rs:63-67 | an element is ignored everywhere exactly if its array is |
| JsonDiff.IsIgnored | crates/catalyrst-conformance/src/diff.rs:69-74 | the loop over patterns decides whether a path is ignored |
| JsonDiff.SectionRules | crates/catalyrst-conformance/src/diff.rs:44-74 | a path is ignored exactly if its last name is one of the ignored fields or a pattern of its section matches it; an unknown section has none |
| JsonDiff.CompareRecursive | crates/catalyrst-conformance/src/diff.rs:80-177 | the recursion with its loops appends exactly the differences of the two values |
| JsonDiff.CompareJson | crates/catalyrst-conformance/src/diff.rs:44-61 | no difference is reported exactly when the values, pruned of what is ignored, are equal up to timestamps within a second |
| JsonDiff.EmptyIffSimilar | crates/catalyrst-conformance/src/diff.rs:80-177 | the same for any set of ignored paths and any path to start from |
| JsonDiff.SameValueReportsNothing | crates/catalyrst-conformance/src/diff.rs:80-177 | comparing a value with itself reports nothing |
| JsonDiff.NumbersAgreeIff | crates/catalyrst-conformance/src/diff.rs:76-167 | two numbers agree exactly if equal, or both between 10^12 and 3 times 10^12 and at most 1000 apart |
| JsonDiff.DigitsReadBack | crates/catalyrst-conformance/src/diff.rs:120-142 | indices in paths are decimal and read back |
| JsonDiff.PathsApart | crates/catalyrst-conformance/src/diff.rs:80-142 | no two elements of an array and no two members of an object share a path |
| Ordering.OrderedIncreases | crates/catalyrst-conformance/src/diff.rs:94-97 | keys are visited in increasing order |
| Ordering.AtMostIff | crates/catalyrst-conformance/src/diff.rs:94-97 | the order is lexicographic: a beginning comes first, else the first differing character decides |
| JsonDiff.ReportsExactly | crates/catalyrst-conformance/src/diff.rs:80-177 | a difference is listed exactly if following keys and indices through both values, along paths that are not ignored, leads to where it arises: with that path and the two sides found there |
| JsonDiff.FlattenInOrder | crates/catalyrst-conformance/src/diff.rs:94-149 | the differences of earlier members and elements come before those of later ones |
| JsonDiff.SwapDiffs | crates/catalyrst-conformance/src/diff.rs:80-177 | swapping the arguments gives the same paths in the same order with the sides swapped |
| JsonDiff.IgnoringMore | crates/catalyrst-conformance/src/diff.rs:80-177 | ignoring more paths leaves a subsequence of the earlier differences |
| JsonDiff.PatternsExtend | crates/catalyrst-conformance/src/volatility.rs:122-127 | adding patterns to a section ignores more paths |
| Retry.RetryWithBackoff | crates/catalyrst-conformance/src/retry.rs:19-76 | for every sequence of replies: at most max(attempts, 5) calls, which call is the last, and each wait is the hint or the rung of its own ladder, at most 30 s, despite saturation |
| Retry.GoesOnIff | crates/catalyrst-conformance/src/retry.rs:19-60 | while every reply asks to retry, another call follows exactly if fewer than max(attempts, 5) were made and plain failures, if any, are fewer than the attempts |
| Retry.WaitIs | crates/catalyrst-conformance/src/retry.rs:40-76 | each wait is the hint, or the base of its kind doubled once for each earlier reply of that kind, cut at 30 s |
| Retry.RungIsPower | crates/catalyrst-conformance/src/retry.rs:40-70 | the k-th rung of a ladder is its base times 2 to the k |
| Retry.PlainFailuresBounded | crates/catalyrst-conformance/src/retry.rs:40-60 | plain failures never outnumber max(attempts, 1): only rate-limited replies buy further calls |
| Retry.RateLimitedLadder | crates/catalyrst-conformance/src/retry.rs:15-76 | unhinted rate-limited waits are 2, 4, 8 and 16 seconds, then 30 for good |
| PrivateVoice.VoiceDb.CreateVoiceChatRoom | crates/catalyrst-comms/src/voice_db.rs:102-125 | one upsert per address, each resetting status and times |
| PrivateVoice.VoiceDb.GetRoomUserIsIn | crates/catalyrst-comms/src/voice_db.rs:217-243 | returns a first candidate in the order of the query, or none exactly if no row counts |
| PrivateVoice.VoiceDb.JoinUserToRoom | crates/catalyrst-comms/src/voice_db.rs:277-308 | the transaction: nothing changes without a candidate, otherwise the picked room is left and the new one connected |
| PrivateVoice.VoiceDb.DeleteVoiceChatUserIsOrWasIn | crates/catalyrst-comms/src/voice_db.rs:310-338 | deletes the room and returns its addresses exactly if the address has a row in it |
| PrivateVoice.VoiceDb.DeleteExpiredPrivateVoiceChats | crates/catalyrst-comms/src/voice_db.rs:348-382 | deletes a full batch of expired rooms and returns, each once, those with a selected row that never left |
| PrivateVoice.VoiceDb.ParticipantJoined | crates/catalyrst-comms/src/voice_logic.rs:156-191 | an inactive room changes no row; otherwise the join transaction runs |
| PrivateVoice.VoiceDb.ParticipantLeft | crates/catalyrst-comms/src/voice_logic.rs:193-235 | what each reason for leaving does to the table |
| PrivateVoice.EveryRunOneConnected | crates/catalyrst-comms/src/voice_db.rs:277-308 | in every run of invitations, joins, leaves, ends and sweeps an address has at most one connected row |
| PrivateVoice.PickedIsConnected | crates/catalyrst-comms/src/voice_db.rs:250-264 | if the address has a connected row, the ranking picks a connected one |
| PrivateVoice.PickedFirst | crates/catalyrst-comms/src/voice_db.rs:250-264 | the picked row is never behind another that counts: connected before lost before awaited, and among equals the latest change |
| PrivateVoice.RankingIsNeeded | crates/catalyrst-comms/src/voice_db.rs:256-264 | picking another row that counts would leave the address connected twice |
| PrivateVoice.JoinConnectsIffInvited | crates/catalyrst-comms/src/voice_db.rs:277-308 | after a join the user is connected to that room if and only if it had a row there; otherwise it is disconnected from the room it was in and connected nowhere; first joins are kept and every other row is unchanged |
| PrivateVoice.UninvitedJoinEndsCall | crates/catalyrst-comms/src/voice_db.rs:293-304 | a run: a connected user joins an active room of two others, its call ends and no row of it counts any more |
| PrivateVoice.LeaveCountsUntil | crates/catalyrst-comms/src/voice_logic.rs:193-235 | until when the leaver's row counts, by reason: not at all, for the time to live, or as before; other rows stay, unless the room was deleted |
| PrivateVoice.InvitedCanJoin | crates/catalyrst-comms/src/voice_db.rs:102-125 | two users invited to a new room find it active exactly up to their time to live, and one who joins is connected there and nowhere else |
| PrivateVoice.RoomActiveIff | crates/catalyrst-comms/src/voice_db.rs:709-721 | a call is active exactly while two users have rows in it and no row has left or outlived its time to live |
| PrivateVoice.SweepTakesExpiredRooms | crates/catalyrst-comms/src/voice_db.rs:348-364 | a sweep removes whole rooms, each holding a row that the lookup does not count, and no other row |
| PrivateVoice.DestroyedIff | crates/catalyrst-comms/src/voice_db.rs:348-382 | the media room goes too exactly if a row that no longer counts was awaited or lost rather than left |
| PrivateVoice.SweepsCount | crates/catalyrst-comms/src/voice_db.rs:348-364 | n sweeps at one instant remove min(expired, n times batch) rooms, all of them expired |
| PrivateVoice.SweepsFinish | crates/catalyrst-comms/src/voice_db.rs:348-364 | with a batch of at least one, as many sweeps as there are expired rooms leave exactly the rooms whose rows all count |
| PrivateVoice.RejectedIffSweptJustBefore | crates/catalyrst-comms/src/voice_db.rs:709-721 | a room of two or more rows is rejected exactly if the sweep would have selected it a millisecond before |
| PrivateVoice.RejectedIsSwept | crates/catalyrst-comms/src/voice_db.rs:709-721 | every such room is one the sweep selects at that instant |
| PrivateVoice.SweptButActive | crates/catalyrst-comms/src/voice_db.rs:709-721 | the converse fails exactly for rooms whose expired rows all reach their time to live at this instant |
| PrivateVoice.SweptWhileActive | crates/catalyrst-comms/src/voice_db.rs:713-720 | such a room: two users invited together, at the instant their time to live is reached |
| PrivateVoice.SweptIffNotCounted | crates/catalyrst-comms/src/voice_db.rs:356-359 | a row is swept exactly when the lookup does not count it |
| CommunityVoice.VoiceDb.JoinUserToCommunityRoom | crates/catalyrst-comms/src/voice_db.rs:384-404 | the upsert forgets the session id and keeps the time of the first join |
| CommunityVoice.VoiceDb.UpdateCommunityUserStatus | crates/catalyrst-comms/src/voice_db.rs:406-441 | an update without a session id keeps the stored one; without a row it does nothing |
| CommunityVoice.VoiceDb.PublishEnded | crates/catalyrst-comms/src/voice_logic.rs:294-333 | publishes unless the count is zero or the key is taken |
| CommunityVoice.VoiceDb.EndCommunityVoiceChat | crates/catalyrst-comms/src/voice_logic.rs:335-357 | counts, deletes and publishes as one step |
| CommunityVoice.VoiceDb.ParticipantLeft | crates/catalyrst-comms/src/voice_logic.rs:377-487 | what each leave does, including stale leaves and the last active moderator |
| CommunityVoice.VoiceDb.DeleteExpiredCommunityVoiceChats | crates/catalyrst-comms/src/voice_db.rs:502-544 | deletes a full batch of rooms without a moderator, or whose moderators are all gone for long enough |
| CommunityVoice.VoiceDb.ExpireCommunityVoiceChats | crates/catalyrst-comms/src/voice_logic.rs:489-514 | counts, sweeps and publishes room by room |
| CommunityVoice.EndingPublishes | crates/catalyrst-comms/src/voice_logic.rs:294-357 | an end, a room-deleted webhook or a leave publishes exactly one event, with the number of rows removed, if and only if it empties the room and the key is new; other rooms keep their rows |
| CommunityVoice.EventsNeverOutnumberEmptyings | crates/catalyrst-comms/src/voice_logic.rs:377-514 | in every run the events of a community never outnumber the times its rows went from some to none |
| CommunityVoice.ExpiryPublishes | crates/catalyrst-comms/src/voice_logic.rs:489-514 | expiry adds exactly the events of swept rooms that had an active moderator when they were counted, each with the number of rows counted |
| CommunityVoice.ExpiryCanPublish | crates/catalyrst-comms/src/voice_logic.rs:489-514 | such a room: its only moderator stops counting between the count and the sweep |
| CommunityVoice.DesertedIsReached | crates/catalyrst-comms/src/voice_logic.rs:477-487 | that room is reached by a run |
| CommunityVoice.ExpiryIsSilent | crates/catalyrst-comms/src/voice_logic.rs:489-514 | a sweep at the instant of the count publishes nothing |
| CommunityVoice.ModeratedRoomsSurvive | crates/catalyrst-comms/src/voice_db.rs:502-530 | a room with an active moderator loses no row to the sweep |
| CommunityVoice.RejoinSurvivesIff | crates/catalyrst-comms/src/voice_logic.rs:359-375 | after a new join an earlier leave is ignored exactly if it is dated more than a second before the join |
| CommunityVoice.NewSessionSurvivesIff | crates/catalyrst-comms/src/voice_logic.rs:359-375 | once a session is stored, leaves of other sessions change nothing and its own take effect |
| CommunityVoice.LeaveClosesIff | crates/catalyrst-comms/src/voice_logic.rs:377-475 | a willing leave that is not out of date closes the room exactly if its author moderates it and no other moderator still counts, else only that row becomes disconnected; out of date, or without a row, it changes nothing |
| CommunityVoice.OtherLeaves | crates/catalyrst-comms/src/voice_logic.rs:377-487 | what leaves for other reasons do: nothing for a second session, an empty room for a deleted one, a row marked as interrupted for a lost connection |
| CommunityVoice.EnteredCountsUntil | crates/catalyrst-comms/src/voice_db.rs:384-404 | a row entered again counts, until it connects, only for what is left of the time to live from its first join |
| CommunityVoice.ExpirableIff | crates/catalyrst-comms/src/voice_db.rs:502-530 | in terms of the MAX of the query: a room is swept exactly if it has no moderator, or none who still counts and the latest change of one is positive and old enough |

## Left out

- Concurrency of `Supply::get`, `handle_socket` and the bake worker is a run of steps on values that end at await points; only the critical sections that change shared fields are methods.
- Finer interleavings inside `recluster_once`, `register_conn` and the voice handlers: each public call or handler is one step. Two overlapping ends of one community room can each count it before either deletes, and then publish twice, in two milliseconds.
- Sockets: credentials in the notifications, the broadcast channel's lagging and the presence table itself are not modelled.
- Gossip signatures, clock skew checks and transport: a rejected batch is a lost one. A node that restarts its batch counter is not modelled.
- Island centre, radius and positions in f32: parcels are integers, distances are exact and the wrap-around of i32 parcel subtraction is not modelled.
- Widths of counters (generations, island ids, batch numbers, byte totals) are unbounded; the widths that matter in the captcha encoder and the saturation of the retry ladders are modelled.
- Png.RenderPng: the answer is an exact real number, so the rounding of its double, infinities and NaN are not modelled; for whole percentages the two agree.
- Png.WriteChunk: the source's truncating cast of the length is kept; the reader accepts lengths below 2^31 as section 3.2 of RFC 2083 demands.
- Zlib.InflateStored: the decoder refuses compressed blocks, which the encoder never writes.
- Multipart: the reader takes quoted names literally, without backslash escapes. Every character stands for one byte.
- JsonDiff.CompareRecursive: a number stands for the double that `as_f64` gives, so two large integers with one double compare equal, as in the source; a difference holds the two values rather than their text cut at 120 bytes. Parsing `volatility.toml` and its defaults are left out.
- Retry: hints are whole milliseconds, and the parsing of the header that carries them is left out.
- Eviction.Store.EvictPass: emptying the directory of evicted files and the age check of transient files are left out.
- PrivateVoice: times are whole milliseconds where the database keeps microseconds; media rooms, tokens and failing statements are left out. A negative batch size is an SQL error and not modelled.
- CommunityVoice: a room is named by its community id, as the webhook only passes on rooms with that prefix. The removal of the prefix by the counting query is taken to undo it. Bulk status queries are left out.
- HTTP routing, configuration, ban service, media server calls, zip and JSON parsing: plumbing, or bodies in crates that are not part of this model.
