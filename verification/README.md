# Tortue, verified

A model of the core of the Tortue BitTorrent client, with proofs about it. The client is built around a
state machine without input or output of its own: inputs go into `Swarm::step` and outputs come out. The
model has four layers.

* **Codecs.** Bencode (`Bencode.dfy`, `BencodeDecoder.dfy`), peer messages and their frames (`Message.dfy`,
  `ExtensionMessage.dfy`, `Framing.dfy`), bit fields (`Bitfield.dfy`), base 32 (`Magnet.dfy`). Printers and
  parsers are functions; the buffers and cursors of the source are objects proved against them. The central
  results say exactly on which inputs one direction undoes the other. `BencodeGrammar.dfy` and `WireFormat.dfy` state
  the formats in literal bytes and prove the codecs equal to them.
* **The swarm.** `PeerRegistry.dfy`, `BlockAssignment.dfy`, `PieceManager.dfy` and `Scheduler.dfy` are its parts,
  `Swarm.dfy` the object with one method per handler. `SwarmSpec.dfy` describes the same steps as a relation on
  values: hash tables are iterated in any order and peers picked at will. `Swarm.Step` refines that relation,
  and everything about runs is proved of the relation: `SwarmInvariants.dfy`, `Runs.dfy`, `UploadRuns.dfy`,
  `StoreRuns.dfy`, `CompletionRuns.dfy`, `MixedPieceRun.dfy`, `AnnouncementRuns.dfy`, `RegistryRuns.dfy`,
  `IdIndexRuns.dfy`, `SimultaneousOpen.dfy`. `PlanRuns.dfy`, `UploadPolicy.dfy`, `Conversation.dfy`,
  `PeerHistory.dfy` and `BlockReceipt.dfy` tell what steps and runs do from inputs, outputs and plain fields alone.
* **Storage and the shell.** `DiskStorage.dfy` shows that the files behave as one flat array behind a first-in
  first-out queue. `SwarmShell.dfy` and `SwarmIO.dfy` compose the swarm with that queue, the command channels and
  the read tasks: what holds whenever the event loop waits, why handling outputs terminates, and, in `CatchUp`, what
  the files themselves then hold.
* **Metadata.** `Metadata.dfy` is the client side of BEP 9, joined with the server side in the swarm;
  `MetadataPolicy.dfy` tells what it does with each input from plain fields.

SHA-1 is an arbitrary function from bytes to hashes, the test for valid UTF-8 an arbitrary predicate. A send to a
peer, a flush and a write succeed or fail at will. `Coherent` in `Torrent.dfy` states the geometry the rest relies
on: `L > 0`, `n >= 1`, `(n-1)*L < total <= n*L`.

Where the code and what one would expect of it differ, the model follows the code:

* `Metainfo::validate` is not the geometry above; `CoherentAcceptedIff` and `AcceptedCoherentIff` say how it differs.
* The address list parser never reaches its IPv6 branch, and an exchange without addresses is rejected by its own
  decoder (`PexRoundTripIff`).
* Local data offered for a piece that already has blocks from peers can complete it without any write
  (`MixedPieceIsNotStored`, `LocalSafeIffUntouched`), and is not announced (`AnnouncementsStayInSync`). `SwarmIO`
  offers local data only before the loop starts.
* A connection accepted at an address that is still registered inherits what the index recorded for that address
  (`NewPeerInheritsPieces`); `AvailabilityIsCurrentIff` says when that matters.
* A connection accepted at an address that is still registered under another id leaves that id in the identity index.
  The client of that id can then be locked out for good (`LockedOut`), or its next connection closes somebody else's
  (`WrongPeerIsClosed`); `AlwaysLiveIff` says when this cannot happen, `UntangledIff` what it means for a pair.
* `HaveAll` does not clear what was recorded before, so a remote end keeps numbers of no piece it once accepted
  (`AnnouncementsAreExact`).
* A second report of a connection that both ends use makes the side that gets it close it (`SecondReportCloses`).
* The bencode decoder is lenient; `ReencodesIffCanonical` gives the inputs it reproduces.
* The metadata client compares the id of a message with the one its sender advertised, not with its own, so a peer
  that chose another id than the client is asked in vain (`OwnIdIsIgnored`); `RequestIsAnsweredIff` gives the ids that
  work.

## Model

| member | source | states |
|---|---|---|
| Runs.RunInv | tortue_lib/src/domain/swarm.rs:213-231 | after any inputs in any order from a fresh swarm: the registry, the requests in flight, the pieces and the pending reads are consistent with one another |
| Runs.IdsStayUnique | tortue_lib/src/domain/swarm.rs:334-361 | in no reachable state do two registered addresses share a peer id |
| Runs.RequestsInFlightAreSound | tortue_lib/src/domain/swarm.rs:315-422 | each request in flight is for a real aligned block, at a registered peer that unchoked us or allows the piece fast; never more than 32 at one peer |
| Runs.InFlightIsOutstanding | tortue_lib/src/domain/swarm.rs:389-437 | the assignment table is exactly the set of (peer, block) pairs an observer of the wire sees as requested and not yet answered, rejected, choked or disconnected |
| Runs.NoRequestIsRepeated | tortue_lib/src/domain/swarm.rs:604-697 | no run ever sends a second `Request` for a pair that is still outstanding, not even within one batch of outputs |
| Runs.UploadsFollowReads | tortue_lib/src/domain/swarm.rs:249-277 | a `Piece` is sent only by the step that handles a completed disk read |
| UploadRuns.ReadsAreConserved | tortue_lib/src/domain/swarm.rs:233-277 | ids below the counter are issued once each and no others ever; every issued id is pending, cancelled or consumed, exactly one of these, exactly once |
| UploadRuns.StaleCompletionIgnored | tortue_lib/src/domain/swarm.rs:249-257 | a completion for a read already cancelled or served has no output and changes nothing, even if the same range was requested again |
| UploadRuns.PendingReadsAreSound | tortue_lib/src/domain/swarm.rs:447-508 | pending reads have distinct ids below the counter, non-empty sets of registered waiters, in-bounds ranges of complete pieces; at most 32 waiters in all, none when upload is off |
| UploadRuns.CompletionServes | tortue_lib/src/domain/swarm.rs:249-277 | a completion that finds its read is sent to every waiting peer, at least one, and counted once per peer; any other one is ignored |
| UploadRuns.UploadedIsSent | tortue_lib/src/domain/swarm.rs:262-276 | the upload counter always equals the bytes of all `Piece` messages sent since the start |
| StoreRuns.StoreAgreement | tortue_lib/src/domain/swarm.rs:377-387 | over a store of any initial content that receives the writes and feeds the local data: each complete piece is stored with its expected hash after every run |
| StoreRuns.CompleteBytesStay | tortue_lib/src/domain/swarm.rs:510-548 | once a piece is complete it stays complete and its stored bytes never change again |
| StoreRuns.UploadsAreVerified | tortue_lib/src/domain/swarm.rs:258-277 | every byte ever uploaded is a byte, at the requested offset, of a complete piece that is stored with its expected hash |
| StoreRuns.WritePieceChanges | tortue_lib/src/domain/swarm.rs:530-537 | writing a delivered piece always finds its address, replaces that piece by the delivered bytes and leaves every other piece alone |
| StoreRuns.StepKinds | tortue_lib/src/domain/swarm.rs:510-548 | a step not fed from the store either writes, announces and completes nothing, or completes one piece: one `Have`, one full write of bytes with the expected hash, and `Completed` exactly if it was the last |
| CompletionRuns.CompletionIsExact | tortue_lib/src/domain/swarm.rs:530-547 | over every run a piece is complete iff it was written once or restored once, never both or twice; `Completed` is reported at most once, and is missing only if local data finished the torrent |
| CompletionRuns.LocalSafeIffUntouched | tortue_lib/src/domain/swarm.rs:377-387 | local data keeps the store in agreement, for every store and every hash function, exactly when no block of that piece has been received yet |
| MixedPieceRun.MixedPieceIsNotStored | tortue_lib/src/domain/swarm.rs:377-387 | a concrete run (connect, `Have`, `Unchoke`, first block) after which the store provides the second block: the piece completes, nothing is ever written, and its stored bytes do not have the hash |
| AnnouncementRuns.AnnouncementIsExact | tortue_lib/src/domain/swarm.rs:363-370 | whichever of `HaveAll`, `HaveNone` and `Bitfield` is chosen leaves exactly the complete pieces claimed, whatever was claimed before, except numbers of no piece under `HaveAll`; fast messages only to fast peers; no spare bit is set |
| AnnouncementRuns.RecordedIsClaimed | tortue_lib/src/domain/swarm/peer_registry.rs:92-115 | a registry that applies one peer's messages in order records exactly what they claim |
| AnnouncementRuns.AnnouncementsAreExact | tortue_lib/src/domain/swarm.rs:363-372 | over every run a remote registry, whatever it recorded before, that processes our greeting and then every broadcast records our complete pieces except those local data has completed since |
| AnnouncementRuns.AnnouncementsStayInSync | tortue_lib/src/domain/swarm.rs:363-387 | it is in sync exactly if local data completed no piece since the greeting and no number of no piece was left under `HaveAll` |
| AnnouncementRuns.EverythingHeardIsExact | tortue_lib/src/domain/swarm.rs:363-437 | processing every message we send to the address since its greeting, requests, pieces and extension messages included, leaves the same record as the greeting and the broadcasts alone |
| SimultaneousOpen.PreferencesMeet | tortue_lib/src/domain/swarm.rs:699-706 | two clients with different ids prefer opposite directions, that is one and the same connection |
| SimultaneousOpen.ClosesIff | tortue_lib/src/domain/swarm.rs:213-231 | a step disconnects an address exactly if duplicate resolution rejects or replaces it, its peer sends a fast message it did not negotiate, or the last block arrives while its peer is a seeder |
| SimultaneousOpen.SecondReportCloses | tortue_lib/src/domain/swarm.rs:334-361 | reporting the preferred connection a second time makes this side close it |
| SimultaneousOpen.UntangledIff | tortue_lib/src/domain/swarm.rs:334-361 | before the preferred connection is reported, no connection event closes it if and only if the identity index is untangled: no entry of the other client in the same direction or at its address, and none of anyone else there that would be replaced |
| SimultaneousOpen.PairsAgree | tortue_lib/src/domain/swarm.rs:334-361 | from any two states with untangled indexes, stale entries included, in every interleaving of both sides' events the preferred connection is never closed by duplicate resolution, and each side is linked by it from the moment it is reported |
| SimultaneousOpen.SimultaneousOpenAgrees | tortue_lib/src/domain/swarm.rs:334-361 | from such states, once both sides know the connection the greater id dialled, both hold that one physical connection for each other, in opposite directions, and no other |
| IdIndexRuns.AlwaysLiveIff | tortue_lib/src/domain/swarm/peer_registry.rs:39-63 | over every run each entry of the identity index names a registered address with a peer of that id, if and only if no connection was accepted at a registered address of another id |
| IdIndexRuns.RunsMayStart | tortue_lib/src/domain/swarm.rs:334-361 | two clients after any such runs that have neither each other nor the address of the preferred connection registered satisfy what simultaneous open starts from |
| IdIndexRuns.LockedOut | tortue_lib/src/domain/swarm.rs:334-361 | it can go wrong: a run after which nobody is registered and still one client is rejected, from any address, in either direction and in every continuation of the run |
| IdIndexRuns.WrongPeerIsClosed | tortue_lib/src/domain/swarm.rs:334-361 | it can go wrong: a run after which the preferred connection of one client closes the connection of another |
| RegistryRuns.RegistryOfRun | tortue_lib/src/domain/swarm.rs:315-361 | the registry after a run is the one its connection events and messages alone lead to |
| RegistryRuns.AvailabilityIsClaimed | tortue_lib/src/domain/swarm/peer_registry.rs:92-126 | after every run rarity counts the registered addresses whose messages, since the address was last disconnected, claim the piece; a classified address is a seeder exactly when it claims every piece |
| RegistryRuns.AvailabilityIsCurrentIff | tortue_lib/src/domain/swarm/peer_registry.rs:39-63 | over every run the index counts exactly what the peers now connected claimed themselves, if and only if no connection was accepted at an address for which it still had something |
| Registries.NewPeerInheritsPieces | tortue_lib/src/domain/swarm/peer_registry.rs:39-48 | a peer that has sent nothing is counted as a holder and as a seeder: it connected from an address whose previous peer announced the piece and was not reported as disconnected |
| SwarmInvariants.InitInv | tortue_lib/src/domain/swarm.rs:166-181 | a fresh swarm satisfies the invariant |
| SwarmInvariants.NextKeeps | tortue_lib/src/domain/swarm.rs:213-231 | every step keeps the invariant that ties registry, assignments, pieces and pending reads together |
| SwarmInvariants.PlanKeepsInFlight | tortue_lib/src/domain/swarm.rs:604-697 | the requests of one plan keep the assignment table sound at every point |
| Scheduling.NoInversion | tortue_lib/src/domain/swarm.rs:604-668 | a block more urgent than one that is requested (fewer holders, or as many and an earlier place) has no eligible peer then, nor at any time until the call ends |
| Scheduling.StuckForRest | tortue_lib/src/domain/swarm.rs:678-687 | once no peer can be picked for a block, none can for the rest of the call |
| Scheduling.CursorIsSound | tortue_lib/src/domain/swarm.rs:645-657 | the block under the cursor at its depth is the most urgent one that can still be served |
| Scheduling.PlanRequests | tortue_lib/src/domain/swarm.rs:636-668 | every request is sound at its time; at most the budget is spent; it ends with the budget spent or no eligible peer for any block within the depth; two sweeps suffice |
| Scheduling.SweepDepth | tortue_lib/src/domain/swarm.rs:640-666 | one pass over the work list at one depth serves or rules out every block with that many holders, and keeps the holder counts equal to a fresh count |
| Scheduling.PickPeer | tortue_lib/src/domain/swarm.rs:678-687 | returns an eligible peer, and none only if there is none |
| Scheduling.SortNeeded | tortue_lib/src/domain/swarm.rs:614-625 | the incomplete pieces, each once, strictly ordered by partial, suggested, rarity and index |
| Scheduling.WorkList | tortue_lib/src/domain/swarm.rs:626-630 | exactly the missing blocks, most urgent piece first and by offset within it |
| Bytes.LessIff | tortue_lib/src/domain/swarm.rs:699-706 | the order of identities and dictionary keys is decided at the first difference, or by the length |
| PlanRuns.EveryRequestIsFair | tortue_lib/src/domain/swarm.rs:604-697 | over every run each `Request` follows a block tick, or an `Unchoke`, `Piece` or negotiated `AllowedFast` of a registered peer, in `Active` or `DownloadOnly`; it follows our interest and asks a peer that announced the piece, unchoked us or allows it, was not asked for the block and has fewer than 32 requests; every missing block with fewer holders, or with as many and in a piece that is started where this one is not, else suggested, else announced by fewer peers, else of smaller number, could be asked of nobody, then or until the step ends |
| PlanRuns.EveryPlanIsMaximal | tortue_lib/src/domain/swarm.rs:604-676 | over every run each such input fills all free slots of the peers that unchoked us, 32 for each, or leaves no missing block, with at most as many holders as there are such peers, that anyone would take |
| UploadPolicy.RequestIsServedIff | tortue_lib/src/domain/swarm.rs:474-508 | a registered peer waits for a range after its request exactly if it did before, or upload is on, the piece is complete, the range is non-empty, at most 16384 bytes and ends within the piece, and fewer than 32 wait; a read under the next number is the output exactly if the range was not being read |
| UploadPolicy.WaitersChange | tortue_lib/src/domain/swarm.rs:447-508 | in every step, for every peer and range: who waits afterwards, told from who waited before and the input |
| UploadPolicy.ReadsAnswerRequests | tortue_lib/src/domain/swarm.rs:474-508 | a read is issued exactly by a served request of a range that is not being read |
| UploadPolicy.BlocksAnswerReads | tortue_lib/src/domain/swarm.rs:249-277 | a block is sent exactly by the completion of its read, to each peer that waits for it, once |
| UploadPolicy.StatusIsLastSet | tortue_lib/src/domain/swarm.rs:233-247 | after every run the status is the one set last, `Active` if none was |
| UploadPolicy.UploadOffIsQuiet | tortue_lib/src/domain/swarm.rs:112-119 | while the status set last is `Stopped` or `DownloadOnly` nothing is pending and no read or block is output |
| UploadPolicy.DownloadOffIsQuiet | tortue_lib/src/domain/swarm.rs:103-110 | while the status set last is `Stopped` or `UploadOnly` no block is requested |
| UploadPolicy.StatusChange | tortue_lib/src/domain/swarm.rs:233-247 | `Active` and `UploadOnly` change the status alone; `Stopped` and `DownloadOnly` also cancel every pending read, each once |
| Conversation.EveryReply | tortue_lib/src/domain/swarm.rs:389-437 | `Interested` is answered with `Unchoke`; what offers pieces with our interest before any request; a stranger is ignored; a fast message without the extension ends the connection; the messages without an action are not answered |
| Conversation.CancelIsAnswered | tortue_lib/src/domain/swarm.rs:447-458 | a cancellation cancels the read exactly if its sender is the only one who waits for it |
| Conversation.EveryOutputHasItsOccasion | tortue_lib/src/domain/swarm.rs:213-231 | over every run each kind of output, and each kind of message, occurs only after the inputs listed for it; no peer is ever choked, and one is unchoked only in answer to its interest |
| Conversation.DiscoveredAreDialled | tortue_lib/src/domain/swarm.rs:321-332 | discovered addresses are dialled in their order, the registered ones left out, and none once every piece is complete |
| Conversation.ExchangedAreDialled | tortue_lib/src/domain/swarm.rs:578-585 | a peer exchange dials each reported address that is not registered once, unless the torrent is complete |
| Conversation.MetadataIsServed | tortue_lib/src/domain/swarm.rs:556-577 | a metadata request gets the 16384 bytes at its offset, or what is left, and the total size, under the number its sender gave for "ut_metadata"; nothing if it gave none |
| Conversation.PeersAreExchanged | tortue_lib/src/domain/swarm.rs:279-313 | the exchange tick sends one message to every classified peer that gave a number for "ut_pex", under that number, with the classified peers |
| PeerHistory.DuplicatesAreResolved | tortue_lib/src/domain/swarm.rs:334-375 | a second connection of an id that is of the same, or not of the preferred, direction is closed and changes nothing; another one starts from a fresh record, after the previous connection is closed and forgotten |
| PeerHistory.GoneIsForgotten | tortue_lib/src/domain/swarm/peer_registry.rs:50-63 | after a disconnection the peer is in no table, and its id is free |
| PeerHistory.RegistryTellsHistory | tortue_lib/src/domain/swarm/peer_registry.rs:226-262 | over every run the registered peers are those connected and not gone, and each record is what the peer has said since: choking, interest, the pieces allowed fast and suggested, the last extension handshake, bytes sent and asked for |
| PeerHistory.SenderIsClassified | tortue_lib/src/domain/swarm/peer_registry.rs:117-124 | the sender of a message is a seeder exactly if the index then has it for every piece, else a leecher, and nobody else is reclassified |
| PeerHistory.IndexTellsHistory | tortue_lib/src/domain/swarm/peer_registry.rs:101-115 | over every run without takeovers a peer is indexed for a piece exactly if some message since it connected says that it has it, and no bit field or `HaveNone` came after |
| BlockReceipt.BlockIsTaken | tortue_lib/src/domain/swarm.rs:510-548 | a block that was asked of its sender, has its length and is missing is stored; the last one completes the piece, with announcement, whole write, and the end of the download, if the bytes have the hash, and empties it if not; no other block changes a piece; all that were asked for count as downloaded |
| BlockReceipt.OtherStepsKeepPieces | tortue_lib/src/domain/swarm.rs:213-231 | no other message or event touches a piece or the download counter, and only local data a piece |
| Swarms.Swarm.constructor | tortue_lib/src/domain/swarm.rs:166-181 | starts in the initial state of the transition system |
| Swarms.Swarm.Step | tortue_lib/src/domain/swarm.rs:213-231 | refines the transition system: its outputs and new state are allowed by `Next` for the old state and the input |
| Swarms.Swarm.OnSwarmCommand | tortue_lib/src/domain/swarm.rs:233-247 | turning upload off cancels every pending read, each once |
| Swarms.Swarm.OnUploadReadCompleted | tortue_lib/src/domain/swarm.rs:249-277 | sends to each waiting registered peer once and counts it; a stale id changes nothing |
| Swarms.Swarm.OnTickPex | tortue_lib/src/domain/swarm.rs:283-311 | one exchange message for every classified peer that advertised the extension, under the id it advertised |
| Swarms.Swarm.Disconnected | tortue_lib/src/domain/swarm.rs:315-319 | the peer leaves the registry, its requests and its upload reads, whose orphans are cancelled |
| Swarms.Swarm.CancelPeerUploads | tortue_lib/src/domain/swarm.rs:460-472 | forgets the waiter everywhere and cancels exactly the reads nobody waits for |
| Swarms.Swarm.OnDiscovered | tortue_lib/src/domain/swarm.rs:321-332 | connects to the unknown addresses, in order, unless the torrent is complete |
| Swarms.Swarm.Announcement | tortue_lib/src/domain/swarm.rs:363-370 | one message that claims exactly the complete pieces |
| Swarms.Swarm.OnPeerConnected | tortue_lib/src/domain/swarm.rs:334-375 | accepts, rejects or replaces as duplicate resolution decides, with the outputs of each case |
| Swarms.Swarm.OnLocalPiece | tortue_lib/src/domain/swarm.rs:377-387 | fills the missing blocks from the local prefix, in order, until the first block outside it |
| Swarms.Swarm.OnMessageReceived | tortue_lib/src/domain/swarm.rs:389-437 | applies the message or rejects it, runs its handler, and replans when scheduling is affected |
| Swarms.Swarm.CancelUpload | tortue_lib/src/domain/swarm.rs:447-458 | removes one waiter and cancels the read when it was the last |
| Swarms.Swarm.OnMessageRequest | tortue_lib/src/domain/swarm.rs:474-508 | ignores, shares or starts a read, counting all waiters against the limit of 32 |
| Swarms.Swarm.OnMessagePiece | tortue_lib/src/domain/swarm.rs:510-548 | only a block requested from this peer is taken; it resolves the request and reports a completed piece |
| Swarms.Swarm.OnExtensionMessage | tortue_lib/src/domain/swarm.rs:550-588 | serves metadata requests and learns addresses from peer exchange; anything else is ignored |
| Swarms.Swarm.FreeBudget | tortue_lib/src/domain/swarm.rs:671-676 | the sum of the free request slots of the peers that unchoked us |
| Swarms.Swarm.Plan | tortue_lib/src/domain/swarm.rs:604-668 | plans within the budget over the missing blocks and sends interest before every request; nothing when download is off |
| Registries.PeerRegistry.Connected | tortue_lib/src/domain/swarm/peer_registry.rs:39-48 | the address becomes the active one of its id and can serve nothing yet; the index is untouched; the registry stays well-formed if no other address has the id |
| Registries.PeerRegistry.Disconnected | tortue_lib/src/domain/swarm/peer_registry.rs:50-63 | forgets the peer everywhere; the id is freed only if this address was its active one |
| Registries.PeerRegistry.Apply | tortue_lib/src/domain/swarm/peer_registry.rs:92-126 | updates peer, index and classification together; unknown peers and unnegotiated fast messages change nothing |
| Registries.PeerRegistry.RecordBits | tortue_lib/src/domain/swarm/peer_registry.rs:101-108 | the loop over a received bitfield records exactly its set bits |
| Registries.PieceAvailability.RecordAll | tortue_lib/src/domain/swarm/peer_registry.rs:177-181 | records the peer for every piece |
| Registries.PieceAvailability.RemovePeer | tortue_lib/src/domain/swarm/peer_registry.rs:183-188 | the peer has no piece any more, nobody else loses one, and a piece nobody is left for leaves the index |
| Registries.ConnectedKeeps | tortue_lib/src/domain/swarm/peer_registry.rs:39-48 | registering keeps the registry well-formed when no other address has the id |
| Registries.DisconnectedKeeps | tortue_lib/src/domain/swarm/peer_registry.rs:50-63 | removing a peer keeps the registry well-formed, whatever stale entries the id index has |
| Registries.ApplyKeeps | tortue_lib/src/domain/swarm/peer_registry.rs:92-126 | an accepted message keeps the registry well-formed and registers or removes nobody |
| Registries.IndexedUnique | tortue_lib/src/domain/swarm/peer_registry.rs:39-63 | if every peer is the active connection of its id, no two peers share an id |
| Registries.IndexIsTranspose | tortue_lib/src/domain/swarm/peer_registry.rs:101-115 | after any events the piece index is the exact transpose of the per-peer sets replayed from the messages |
| Registries.RarityIsClaimantCount | tortue_lib/src/domain/swarm/peer_registry.rs:206-210 | rarity is the true number of claimants, or the maximum when there is none |
| Registries.SeederIffClaimsAll | tortue_lib/src/domain/swarm/peer_registry.rs:196-199 | a peer has every piece in the index exactly when its messages claim every piece |
| Assignments.BlockAssignments.Assign | tortue_lib/src/domain/swarm/block_assignment.rs:18-23 | the holders afterwards are those before and this pair; a fresh request adds one to the count of its block |
| Assignments.BlockAssignments.Unassign | tortue_lib/src/domain/swarm/block_assignment.rs:25-29 | the holders afterwards are those before without this pair, whether or not it was there |
| Assignments.BlockAssignments.ReleasePeer | tortue_lib/src/domain/swarm/block_assignment.rs:55-57 | the peer holds nothing and has all its slots free; every other holder stays |
| Assignments.BlockAssignments.HolderCounts | tortue_lib/src/domain/swarm/block_assignment.rs:45-53 | the counting loops give every block the true number of peers that hold it |
| Assignments.AssignCounts | tortue_lib/src/domain/swarm/block_assignment.rs:18-53 | a fresh request adds one holder to its block and changes no other count |
| PieceManagers.Piece.BlockLength | tortue_lib/src/domain/swarm/piece_manager.rs:264-275 | the exact length of a block, zero for a complete piece, an error past the end |
| PieceManagers.Piece.Buffer | tortue_lib/src/domain/swarm/piece_manager.rs:302-317 | all blocks in order, and only when none is missing |
| PieceManagers.Piece.Reset | tortue_lib/src/domain/swarm/piece_manager.rs:319-330 | every block of a partial piece is missing again |
| PieceManagers.Piece.ReceiveBlock | tortue_lib/src/domain/swarm/piece_manager.rs:234-262 | stores, rejects, completes or resets as the specification of one block says |
| PieceManagers.StoreBlockKeeps | tortue_lib/src/domain/swarm/piece_manager.rs:234-262 | a piece completes exactly when its last missing block arrives and the whole buffer has the expected hash, and then hands out that buffer |
| PieceManagers.JoinedIs | tortue_lib/src/domain/swarm/piece_manager.rs:302-317 | blocks cut from a content at their offsets join to that content |
| PieceManagers.UnreceivedAreMissing | tortue_lib/src/domain/swarm/piece_manager.rs:76-92 | the blocks asked for are exactly the missing blocks of the piece, with their exact offsets and lengths |
| PieceManagers.NeededIsListing | tortue_lib/src/domain/swarm/piece_manager.rs:94-99 | the incomplete pieces, ascending, each once |
| PieceManagers.PieceManager.constructor | tortue_lib/src/domain/swarm/piece_manager.rs:45-70 | every piece is empty and has its exact length; the bitfield is empty |
| PieceManagers.PieceManager.ReceiveBlock | tortue_lib/src/domain/swarm/piece_manager.rs:132-164 | checks length, alignment and index, then the piece; the bitfield stays the set of complete pieces |
| PieceManagers.ReceiveIntoKeeps | tortue_lib/src/domain/swarm/piece_manager.rs:132-164 | touches at most the named piece, never un-completes one, and reports a completed piece exactly when one completes, with its whole range and verified bytes |
| PieceManagers.AvailableIffComplete | tortue_lib/src/domain/swarm/piece_manager.rs:105-111 | available bytes equal the total exactly when every piece is complete |
| PieceManagers.FillWhole | tortue_lib/src/domain/swarm.rs:377-387 | filling a partial piece from data that covers it completes it if old and new blocks together have the hash, and empties it otherwise |
| PieceManagers.RestoreIsExact | tortue_lib/src/domain/swarm.rs:377-387 | filling an untouched piece completes it exactly when the data covers it and has the expected hash |
| SwarmIOs.SwarmIO.Restore | tortue_lib/src/adapters/swarm_io.rs:118-137 | a fresh swarm completes exactly the pieces whose stored bytes have the expected hash, and the loop can start |
| SwarmIOs.SwarmIO.SendToAll | tortue_lib/src/adapters/swarm_io.rs:265-271 | a broadcast offers the message to every channel exactly once, and schedules the disconnection of some of these peers and nothing else |
| SwarmIOs.SwarmIO.Drop | tortue_lib/src/adapters/swarm_io.rs:248-257 | a disconnection removes the channel and the peer and leaves only cancellations to handle, of less weight |
| SwarmIOs.SwarmIO.HandleTop | tortue_lib/src/adapters/swarm_io.rs:243-293 | one turn of the worklist takes the top output's effect on channels, tasks, registered peers and store, puts only what it leads to on the stack, keeps the books balanced and lowers the measure |
| SwarmIOs.SwarmIO.HandleOutput | tortue_lib/src/adapters/swarm_io.rs:241-295 | the worklist terminates although handling steps the swarm again; the output takes its effect on the store and offers its message exactly once; a connection has a channel, and those it led to disconnect, its own target or the offered ones, have lost channel and registration, and nobody else |
| SwarmIOs.SwarmIO.HandleAll | tortue_lib/src/adapters/swarm_io.rs:230-232 | after all outputs: settled books, the store changed as the outputs say, the barrier where they put it |
| SwarmIOs.SwarmIO.RunStep | tortue_lib/src/adapters/swarm_io.rs:148-239 | one iteration keeps every loop-head property, uploads only verified bytes, opens no channel but those its outputs dial and closes that of a disconnected peer, and publishes completion only when all pieces are complete and no write waits for a flush |
| SwarmIOs.SwarmIO.Publish | tortue_lib/src/adapters/swarm_io.rs:332-343 | a snapshot shows all bytes available exactly when all pieces are complete, and then nothing is unflushed |
| SwarmIOs.SwarmIO.AcceptInbound | tortue_lib/src/adapters/swarm_io.rs:322-330 | opens a channel unless the address has one, and keeps the loop-head properties |
| SwarmIOs.SwarmIO.PollTask | tortue_lib/src/adapters/disk_storage.rs:87-109 | a read task may send its command at any loop head after it was spawned; the store is unchanged and every loop-head property stays, among them that the task reads the verified bytes of its range |
| SwarmIOs.LoopHeadKept | tortue_lib/src/adapters/swarm_io.rs:148-239 | a step and the handling of its outputs lead from one loop head to the next: one read task per pending read, a channel per registered peer, verified store, addressed writes, every task reading its own range, flushed completion |
| SwarmIOs.Open | tortue_lib/src/adapters/disk_storage.rs:111-126 | the files are laid out with what they held before, and their contents are what the queue of the new session starts from |
| SwarmIOs.CatchUp | tortue_lib/src/adapters/disk_storage.rs:156-182 | whenever the loop waits and the worker has caught up, the files themselves hold bytes with the expected hash for every complete piece, and the worker has answered every task that sent its command with verified bytes of the range it asked for |
| SwarmIOs.RestoreOne | tortue_lib/src/adapters/swarm_io.rs:121-132 | offering one piece from the store completes it iff its stored bytes have the hash, and touches no other piece |
| SwarmShell.BalancedSettles | tortue_lib/src/adapters/swarm_io.rs:148-239 | when no output is left, the read tasks are exactly the pending reads with their ranges, and every registered peer has a channel |
| SwarmShell.StepBalances | tortue_lib/src/adapters/swarm_io.rs:197-232 | from settled books, preparing an input and stepping the swarm leaves books that balance with the outputs still to handle |
| SwarmShell.PopDisconnect | tortue_lib/src/adapters/swarm_io.rs:248-257 | a nested disconnection keeps the books balanced and turns pending reads into as many cancellations |
| SwarmShell.TasksStay | tortue_lib/src/adapters/swarm_io.rs:278-292 | a task whose command is queued keeps reading the bytes stored now across every step, since complete pieces never change |
| SwarmShell.TaskStarts | tortue_lib/src/adapters/disk_storage.rs:93-108 | whenever a task is polled, its command reads what is stored then, and no other task is affected |
| SwarmShell.TaskIsAnswered | tortue_lib/src/adapters/disk_storage.rs:163-170 | the answer of the worker to a task, whatever is queued later, is its range as it is stored now |
| SwarmShell.StepEndsFlushed | tortue_lib/src/adapters/swarm_io.rs:260-265 | the outputs of the step that completes the torrent end with the barrier, and no later step writes |
| DiskStorages.CreateFiles | tortue_lib/src/adapters/disk_storage.rs:267-304 | files opened at the running offset follow one another without gaps and hold as many bytes as the torrent, empty files included |
| DiskStorages.WriteToFiles | tortue_lib/src/adapters/disk_storage.rs:192-216 | the concatenated contents change exactly in the part of the range inside them |
| DiskStorages.ReadFromFiles | tortue_lib/src/adapters/disk_storage.rs:218-245 | returns exactly that slice of the concatenated contents; only an overflowing range is an error |
| DiskStorages.SharesOverlay | tortue_lib/src/adapters/disk_storage.rs:192-216 | giving every file its share of a write is writing to the concatenation |
| DiskStorages.OverlayInRange | tortue_lib/src/adapters/disk_storage.rs:192-216 | an in-range write replaces exactly its range and is read back |
| DiskStorages.OverlayElsewhere | tortue_lib/src/adapters/disk_storage.rs:192-245 | ranges a write does not meet read the same before and after |
| DiskStorages.StorageOffsetIff | tortue_lib/src/adapters/disk_storage.rs:128-154 | a range has an address iff it is a non-empty part of a piece, and the address is inside that piece's interval |
| DiskStorages.AddressesDisjoint | tortue_lib/src/adapters/disk_storage.rs:128-154 | ranges of different pieces never share an address |
| DiskStorages.Worker | tortue_lib/src/adapters/disk_storage.rs:156-182 | the files, and the answer to each command, behave as one flat store executing the commands one after the other |
| DiskStorages.AnswerAt | tortue_lib/src/adapters/disk_storage.rs:156-182 | a command is answered from what the commands before it stored, whatever is queued after it |
| DiskStorages.ReadAfterWrite | tortue_lib/src/adapters/disk_storage.rs:156-182 | a read queued after a write returns what was written, whatever else is queued that does not write to the same addresses |
| DiskStorages.DiskStorage.Write | tortue_lib/src/adapters/disk_storage.rs:63-75 | queues the write at its address, exactly when length and range are valid |
| DiskStorages.DiskStorage.Read | tortue_lib/src/adapters/disk_storage.rs:87-109 | queues the read at its address, exactly when the range is valid |
| Bencodes.PrintThenParse | tortue_lib/src/domain/bencode.rs:48-90 | parsing a printed value, whatever follows it, gives back the value and leaves what follows |
| Bencodes.PrefixFree | tortue_lib/src/domain/bencode.rs:60-90 | no encoding is a proper prefix of another |
| Bencodes.Normalisation | tortue_lib/src/domain/bencode.rs:48-90 | whatever the lenient parser accepted once is, re-encoded, accepted again as the same value |
| Bencodes.ParsedIsWellFormed | tortue_lib/src/domain/bencode.rs:138-242 | every parsed value is one the printer is correct on |
| Bencodes.ReencodesIffCanonical | tortue_lib/src/domain/bencode.rs:60-242 | re-encoding reproduces the consumed bytes exactly on canonical input: ascending keys, minimal decimals, no plus sign |
| Bencodes.EmittedIsCanonical | tortue_lib/src/domain/bencode.rs:60-90 | everything printed is canonical |
| Bencodes.InfoBytesAreTheFileBytesIff | tortue_lib/src/domain/torrent.rs:225-231 | in any accepted file, re-encoding the value of `info` gives the very bytes that stand in the file for it, so the hash is over the original bytes, exactly when those bytes are canonical |
| Bencodes.EncodeInto | tortue_lib/src/domain/bencode.rs:60-90 | appends exactly the encoding to the buffer |
| Bencodes.EncodeEntriesInto | tortue_lib/src/domain/bencode.rs:77-88 | the loop over a map prints every entry once, keys ascending |
| BencodeDecoder.Decoder.ParseInt | tortue_lib/src/domain/bencode.rs:173-187 | consumes and returns what the specification does; success moves the cursor forward and never past the end |
| BencodeDecoder.Decoder.ParseLen | tortue_lib/src/domain/bencode.rs:203-218 | consumes and returns what the specification does |
| BencodeDecoder.Decoder.ParseByteString | tortue_lib/src/domain/bencode.rs:193-201 | consumes and returns what the specification does, advancing on success |
| BencodeDecoder.Decoder.Parse | tortue_lib/src/domain/bencode.rs:138-146 | the recursive parser terminates on every input; success strictly advances |
| BencodeDecoder.Decoder.ParseList | tortue_lib/src/domain/bencode.rs:220-228 | the loop over elements agrees with the specification |
| BencodeDecoder.Decoder.ParseDict | tortue_lib/src/domain/bencode.rs:230-242 | the loop over entries agrees with the specification; a repeated key keeps its last value |
| BencodeDecoder.DecodeWithRest | tortue_lib/src/domain/bencode.rs:48-52 | the cursor parser computes the specified value and rest, on every input |
| BencodeGrammar.ReadsIffParsed | tortue_lib/src/domain/bencode.rs:133-245 | an independent grammar in literal bytes, for every input: the parser returns a value and a rest exactly if the input is a text of that value followed by that rest; zeros in front of lengths and plus signs included |
| BencodeGrammar.RefusedInt | tortue_lib/src/domain/bencode.rs:173-187 | an integer without its end is cut off, and one whose text is none of the admitted ones is an invalid integer |
| BencodeGrammar.RefusedString | tortue_lib/src/domain/bencode.rs:193-218 | a length without its colon or of more than 64 bits is invalid, and a string that is too short is cut off |
| BencodeGrammar.RefusedElsewhere | tortue_lib/src/domain/bencode.rs:138-245 | the reasons given for other first bytes, missing ends, keys and nested values |
| BencodeGrammar.PrintsText | tortue_lib/src/domain/bencode.rs:60-90 | the printer writes the text an independent printer in literal bytes writes, keys ascending |
| BencodeGrammar.TextIsRead | tortue_lib/src/domain/bencode.rs:44-90 | that text is read back, whatever follows |
| WireFormat.LayoutIs | tortue_lib/src/domain/message.rs:126-197 | each message whose fields fit is written as its number and its fields, four bytes each, most significant first |
| WireFormat.ReadAsLaidOut | tortue_lib/src/domain/message.rs:199-305 | for every input: the exact malformed ones are refused, and any other is read as the message it is the layout of; unknown numbers are skipped over |
| WireFormat.FrameIs | tortue_lib/src/adapters/peer_io.rs:418-424 | a frame is the length in four bytes, most significant first, and the message |
| WireFormat.LongFramesAreRefused | tortue_lib/src/adapters/peer_io.rs:426-441 | a frame is refused as too large exactly if it announces more than 1048576 bytes |
| WireFormat.HandshakeIsRead | tortue_lib/src/domain/message.rs:348-379 | a name has a number exactly if "m" is a dictionary that gives it one of one byte under a UTF-8 name; the size is that of "metadata_size" unless negative |
| WireFormat.HandshakeIsWritten | tortue_lib/src/domain/message.rs:381-397 | the keys and values of a written handshake |
| WireFormat.MetadataIsRead | tortue_lib/src/domain/message.rs:418-435 | "msg_type" 0, 1 and 2 are request, data and reject of "piece", with "total_size" and what follows for data; other kinds are skipped over |
| WireFormat.ExchangeIsRead | tortue_lib/src/domain/message.rs:473-512 | an address is reported exactly if a group of six bytes of "added" or "added6" gives it and none of "dropped" or "dropped6" does |
| WireFormat.ExchangeIsRefusedIff | tortue_lib/src/domain/message.rs:473-512 | an exchange is refused exactly if it has none of the four strings or one that is no multiple of six bytes |
| WireFormat.ExchangeIsWritten | tortue_lib/src/domain/message.rs:514-539 | each address of an exchange is written, address bytes then port, as a group of the string of its kind |
| WireFormat.BitfieldLength | tortue_lib/src/domain/bitfield.rs:19-22 | a bit field has the least number of bytes that holds a bit for each piece |
| WireFormat.BitIs | tortue_lib/src/domain/bitfield.rs:106-145 | piece `p` is the bit of value 128, 64, down to 1 of byte `p / 8` |
| Messages.DecodeUndoesEncodeIff | tortue_lib/src/domain/message.rs:126-313 | decoding undoes encoding exactly on the messages whose fields fit the wire format |
| Messages.EncodeUndoesDecodeIff | tortue_lib/src/domain/message.rs:126-313 | encoding undoes decoding except for unknown ids, trailing bytes of the four one-byte messages, and extension handshakes that are not canonical or hold more than the record |
| Messages.HandshakeReencodesIff | tortue_lib/src/domain/message.rs:347-396 | a received handshake re-encodes to the same bytes exactly when they are canonical, end with the dictionary, and it has no entry beyond those the record keeps |
| Messages.HandshakeRoundTrip | tortue_lib/src/domain/message.rs:347-396 | an extension handshake survives exactly when its names are UTF-8 and its size fits a signed 64-bit integer |
| Framing.EncodeMessage | tortue_lib/src/domain/message.rs:126-197 | what it builds is decoded to the same message exactly when the message may be sent |
| Framing.FrameMessage | tortue_lib/src/adapters/peer_io.rs:418-424 | what it builds is received as the same message, and nothing of what follows, exactly when the message may be sent and is at most 1 MiB |
| Framing.ReadFrom | tortue_lib/src/adapters/peer_io.rs:426-439 | reads one frame and consumes exactly it; oversized, truncated and malformed frames are the three errors |
| Framing.FrameRoundTripIff | tortue_lib/src/adapters/peer_io.rs:416-439 | a frame is read back as the same message and nothing more exactly when the message may be sent and is at most 1 MiB |
| Framing.StreamRoundTrip | tortue_lib/src/adapters/peer_io.rs:416-439 | repeated reads return any sequence of deliverable messages in order and leave the stream aligned |
| Framing.ReceiveConsumesFrame | tortue_lib/src/adapters/peer_io.rs:426-439 | a successful read consumes header and payload exactly |
| ExtensionMessages.UtMetadataRoundTripIff | tortue_lib/src/domain/message.rs:417-464 | every metadata message with 64-bit fields survives, except the placeholder that has no encoding |
| ExtensionMessages.EncodeUtMetadataMessage | tortue_lib/src/domain/message.rs:437-464 | what it builds is decoded to the same message, except for the placeholder |
| ExtensionMessages.NoV6Decoded | tortue_lib/src/domain/message.rs:541-566 | the IPv6 branch is unreachable: no input decodes to an IPv6 address |
| ExtensionMessages.PexNeverReportsV6 | tortue_lib/src/domain/message.rs:473-512 | no exchange message reports an IPv6 peer |
| ExtensionMessages.PexRoundTripIff | tortue_lib/src/domain/message.rs:473-538 | a set of peers survives the exchange exactly when it is non-empty and all IPv4 |
| ExtensionMessages.EncodePexMessage | tortue_lib/src/domain/message.rs:514-538 | the loop over the set yields an encoding of exactly that set, each address once, in some order |
| ExtensionMessages.DecodePexMessage | tortue_lib/src/domain/message.rs:473-512 | the loop over the entries computes added minus dropped, or the error, whatever the order |
| MetadataPolicy.HandshakeLaw | tortue_lib/src/domain/metadata.rs:54-73 | a handshake counts exactly with "ut_metadata" and a size; the first size is kept and cut every 16384 bytes; its sender is asked for every missing fragment, in order, under its number |
| MetadataPolicy.RejectLaw | tortue_lib/src/domain/metadata.rs:88-96 | a refused fragment is asked of another known peer under that peer's number, if there is one |
| MetadataPolicy.FragmentLaw | tortue_lib/src/domain/metadata.rs:81-87 | a fragment is kept exactly if a known peer sent it under its number and the place is empty; the last one reports the dictionary if it has the hash and empties every place if not |
| MetadataPolicy.OtherInputs | tortue_lib/src/domain/metadata.rs:40-54 | discovered peers are dialled in order, one that is gone is forgotten, and messages of strangers, of other kinds or under other numbers change nothing |
| MetadataExchange.DoneOnceAndVerified | tortue_lib/src/domain/metadata.rs:133-143 | whatever peers send, the info bytes are reported at most once and only with the expected hash |
| MetadataExchange.HonestExchange | tortue_lib/src/domain/metadata.rs:54-143 | with honest fragments, in any order, repeatedly, and mixed with anything else, the info dictionary is reported exactly once, when its last fragment has been delivered |
| MetadataExchange.MismatchStartsOver | tortue_lib/src/domain/metadata.rs:145-152 | a complete set with the wrong hash is thrown away and every fragment asked again of every known peer |
| MetadataExchange.CutAssembles | tortue_lib/src/domain/torrent.rs:62-72 | the served fragments, in order, are the info dictionary |
| MetadataExchange.ReplyAcceptedIff | tortue_lib/src/domain/metadata.rs:72-79 | the reply of a server is accepted as the requested fragment exactly when the id the client advertised equals the one it holds for the server, and dropped otherwise |
| MetadataExchange.RequestIsAnsweredIff | tortue_lib/src/domain/swarm.rs:556-576 | through the real encoders, for any ids: a request is answered with a message the client accepts exactly when both ends use `UT_METADATA_EXT_ID` |
| MetadataExchange.OwnIdIsIgnored | tortue_lib/src/domain/metadata.rs:72-79 | a peer that chose another id is asked, and its correct answer is dropped |
| MetadataExchange.ServedDelivers | tortue_lib/src/domain/swarm.rs:556-576 | a reply of a server is an honest input, and delivers its fragment exactly if it comes under the id the client holds for its sender |
| MetadataExchange.ServedExchange | tortue_lib/src/domain/metadata.rs:54-143 | client and servers joined: fed with replies of servers in any order, from any of them and repeatedly, the client reports the info dictionary exactly once, when every fragment has come, and nothing else |
| MetadataExchange.Metadata.Step | tortue_lib/src/domain/metadata.rs:40-52 | refines the transition system of the client |
| MetadataExchange.Metadata.TryFinalize | tortue_lib/src/domain/metadata.rs:133-152 | reports the joined bytes if they have the hash, otherwise empties and re-requests |
| MetadataExchange.Metadata.OnData | tortue_lib/src/domain/metadata.rs:79-89 | a fragment fills an empty slot once; the last one finalizes |
| MetadataExchange.Metadata.OnHandshakeFrom | tortue_lib/src/domain/metadata.rs:56-70 | fixes the size once, remembers the peer and requests what is missing |
| MetadataExchange.Metadata.OnRejected | tortue_lib/src/domain/metadata.rs:90-96 | asks another known peer, if there is one |
| MetadataExchange.Metadata.RequestMissingFrom | tortue_lib/src/domain/metadata.rs:104-114 | requests every missing fragment once, in order |
| Bitfields.Bitfield.SetBit | tortue_lib/src/domain/bitfield.rs:36-43 | adds exactly this bit to the set, or reports it out of range |
| Bitfields.Bitfield.UnsetBit | tortue_lib/src/domain/bitfield.rs:45-52 | removes exactly this bit from the set, or reports it out of range |
| Bitfields.Bitfield.HasBit | tortue_lib/src/domain/bitfield.rs:64-70 | membership in the set, or none out of range |
| Bitfields.Bitfield.SetAll | tortue_lib/src/domain/bitfield.rs:24-28 | every declared bit is set and no other is touched |
| Bitfields.Bitfield.ExtendBytes | tortue_lib/src/domain/bitfield.rs:54-62 | ors in bytes of the same length, and only those |
| Bitfields.TryFrom | tortue_lib/src/domain/bitfield.rs:90-98 | the field holds exactly the bytes |
| Bitfields.SetBitsInjective | tortue_lib/src/domain/bitfield.rs:36-70 | bytes of one length are determined by the set they hold |
| Bitfields.BitfieldIter.Next | tortue_lib/src/domain/bitfield.rs:128-145 | yields the first remaining set bit, after which it no longer remains; none only at the end |
| Bitfields.BitsFromIsListing | tortue_lib/src/domain/bitfield.rs:128-145 | iteration yields every set bit once, ascending, and nothing else |
| Torrents.CoherentAcceptedIff | tortue_lib/src/domain/torrent.rs:74-85 | a coherent torrent passes validation exactly when its last piece is short and it is at most 40 GiB |
| Torrents.AcceptedCoherentIff | tortue_lib/src/domain/torrent.rs:74-85 | an accepted torrent is coherent exactly when it has no surplus hash |
| Torrents.ValidationDeviates | tortue_lib/src/domain/torrent.rs:74-85 | both deviations occur: a coherent torrent is rejected and an incoherent one accepted |
| Torrents.PieceInterval | tortue_lib/src/domain/swarm/piece_manager.rs:50-56 | every piece is a non-empty interval inside the torrent that ends where the next one starts |
| Torrents.PiecesDisjoint | tortue_lib/src/domain/swarm/piece_manager.rs:50-56 | the intervals of different pieces do not meet |
| Torrents.PiecesTile | tortue_lib/src/domain/swarm/piece_manager.rs:50-56 | every offset of the torrent lies in a piece |
| Magnet.AlphabetIs | tortue_lib/src/domain/magnet.rs:94-122 | the digits are A to Z, in either case, then 2 to 7 |
| Magnet.Base32Decode | tortue_lib/src/domain/magnet.rs:94-117 | succeeds exactly on valid strings, with the number they write, cut to whole bytes |
| Magnet.HeldShiftOut | tortue_lib/src/domain/magnet.rs:94-117 | taking a digit in keeps the accumulator below 4096, and shifting a byte out loses nothing of the number read so far |
| Magnet.EncodedValue | tortue_lib/src/domain/magnet.rs:94-117 | what the standard encoder writes is valid and denotes the same number |
| Magnet.DecodeInvertsEncode | tortue_lib/src/domain/magnet.rs:94-117 | decoding the standard encoder's output gives the bytes back and nothing else |
| Magnet.InfoHashIsExact | tortue_lib/src/domain/magnet.rs:70-117 | 32 characters give exactly 20 bytes, and spell, up to case, what the encoder writes for them |

## Left out

- Sockets, sessions, timeouts, retries, the listener and the swarm registry of connections (most of `peer_io.rs`, `swarm_registry.rs`): asynchronous input and output.
- Trackers, the command line, the progress bar, logging and composition: plumbing and fixed-layout packets.
- File opening, paths, `set_len` and input/output errors of single files: the model starts from files of their declared lengths, so the early stop of a short read never happens in it; a failed write or flush ends the run.
- Transfer rates and completion ratios: floating point.
- The 68-byte handshake, and the parsing of torrent dictionaries beyond the re-encoding of `info`: they would add easy members only.
- Progress against silent peers: assignments never expire, so the code promises none.
- Overflow of the 64-bit counters of bytes and of read ids: the model counts without bound; the source stops at the last id.
- The instants at which blocks were requested: they are stored and never read back.
- `HashMap` and `HashSet` as memory: they are maps and sets of values, iterated in an arbitrary order.
- SwarmIOs.SwarmIO.RunStep: takes one input the loop may see; the waiting for it, tasks that end after being cancelled, failed reads (which end the run) and the loop itself are not modelled.
- SwarmIOs.SwarmIO.PollTask: tasks are polled between iterations, not while the outputs of a step are being handled; the command of a task cancelled in the meantime stays in the queue with its answer unused, where the worker of the source skips it.
- SwarmIOs.SwarmIO.Publish: only the totals that decide completion are part of the snapshot.
- SimultaneousOpen.PairsAgree: assumes that the preferred connection is reported once, is not closed for another reason than duplicate resolution (`ClosesIff` lists them), is lost only after it was closed, and that no third client connects from its address. It starts from untangled identity indexes, which `RunsMayStart` derives for runs that take over no address.
- Bencodes.EncodeInto: positions inside error values of the decoder are not modelled; the errors themselves are.
