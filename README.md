# geostationary: a verified model of the game's sequential core

This project models, in Dafny, the parts of the geostationary game whose
behaviour can be stated and checked without a game engine or a network
stack. Each of them gets its own module:

- **Network** (`network.dfy`): the game-thread half of the networking layer.
  - `Server`'s net-id counter and the client's local id.
  - The bounded client outbound channel and the server command sender.
  - The `StreamRegistry`: tagged module streams, per-tag receive buffers and shared sender slots.
  - The direction guards and error classification of stream senders, and the FIFO drains of stream readers.
  - The two per-frame event drains with their 100-event cap and the one-frame deferral of stream-ready sentinels.
- **Tiles** (`tiles.dfy`): the row-major tile map, with bounds-checked access, walkability and row-major iteration.
- **GasGrid** (`gas_grid.dfy`): the atmospherics grid.
  - It uses the same indexing as the tile map and keeps a passability mask synced from the tile map.
  - It stores moles per cell, stepped by a no-op.
- **Interactions** (`interactions.dfy`): the right-click context menu, the selection of a menu action, and the server-side dispatch.
  - The dispatch covers tile toggles and the forwarding of item requests through the net-id index.
- **Items** (`items.dfy`): the slot container and the four validation
  chains for picking up, dropping, storing and taking items.
- **Souls** (`souls.dfy`): binding a joining client to a new creature,
  unbinding on leave, routing input, and the client's de-duplicated input
  sending.
- **LogLevel** (`log_level.dfy`): the case-insensitive log-level parser
  that the three binaries repeat word for word.
- **The older generation of the replication glue** (`replication.dfy`, `legacy_protocol.dfy`, `network_events.dfy`, `legacy_client.dfy`, `legacy_server.dfy`, `net_game.dfy`):
  - The client-side replica table.
  - The message sequences the server sends on connect.
  - The listen-server peer handling.
  - The broadcast throttling rule.

Bevy's deferred commands are modelled explicitly where the next frame depends on them.
- Spawns and despawns of replicas take effect only after the system has run. `Replication.Table` therefore holds the visible rows beside a queue of spawns and despawns, and `Flush` applies the queue.
- The item system's component inserts and removals are returned as a list of `Items.ItemCommand`s, one per accepted request. `Items.NextItems` applies them to the item markers (collider, gravity, stash, parent) that the next frame validates against; transforms, visibility and the parent's identity are carried only in the commands' fields.
- Container updates in the item system, the local id in the client message loops, and tile-map writes happen at once. They are modelled as in-place updates.

Timers are a boolean "fired" input. Positions, velocities and moles are reals, and directions are opaque values that are only compared.

The model departs from the code in two places:
- Stream registration refuses tag 0 and duplicate tags; the code panics on both. The model returns them as distinct errors.
- A server-side send goes into one shared command channel, and a failed `NetServerSender` send is logged and never reported. The model does not report a per-peer "buffer full".

## Model

| member | source | states |
|---|---|---|
| Network.Server.constructor | modules/network/src/lib.rs:61-69 | a new session's counter is 1 and no id has been handed out |
| Network.Server.NextNetId | modules/network/src/lib.rs:72-76 | returns the current counter and advances it by one; the id returned was never returned before (the older `Server` of src/server.rs:36-52 follows the same rule) |
| Network.Client.constructor | modules/network/src/lib.rs:79-83 | a client session starts without a local id |
| Network.TrySendOutcome | modules/network/src/lib.rs:230-242 | a send succeeds exactly when the receiver exists and the queue is below capacity; a dropped receiver is reported as closed before a full queue |
| Network.TrySendBounded | modules/network/src/lib.rs:230-242 | a send never pushes a channel past its capacity and adds at most the one message |
| Network.TrySendFifo | modules/network/src/lib.rs:230-242 | a successful send appends the message behind everything already queued |
| Network.NetClientSender.constructor | modules/network/src/lib.rs:225-227 | the sender wraps a fresh, empty, open channel of the given capacity |
| Network.NetClientSender.Send | modules/network/src/lib.rs:230-242 | the message is queued only on success; the result is Ok, BufferFull or Closed exactly as the channel reports sent, full or receiver gone |
| Network.NetServerSender.constructor | modules/network/src/lib.rs:168-176 | the server command channel starts empty and open |
| Network.NetServerSender.SendTo | modules/network/src/lib.rs:179-186 | an open channel gets exactly one addressed command at the back; a closed one drops it and the failure is not reported |
| Network.NetServerSender.Broadcast | modules/network/src/lib.rs:189-195 | an open channel gets exactly one broadcast command at the back; a closed one drops it |
| Network.CountIsTagCount | modules/network/src/lib.rs:605-612 | with distinct tags, the number of streams in a direction equals the number of distinct tags registered in it |
| Network.CountFitsInByte | modules/network/src/lib.rs:605-612 | distinct non-zero byte tags allow at most 255 streams per direction, so the count always fits the byte the code narrows it to |
| Network.TagsInOrderMatchesCount | modules/network/src/lib.rs:640-656 | the ordered list of client-to-server tags has one entry per such stream and holds exactly their tags |
| Network.RegisterKeepsWellFormed | modules/network/src/lib.rs:519-575 | registering a fresh non-zero tag with its buffer (and, client to server, its sender slot) keeps the registry invariant; only server-to-client registrations raise the count |
| Network.DecodeAllAppend | modules/network/src/lib.rs:710-720 | decoding a buffer decodes its frames in arrival order: the decoding of a concatenation is the concatenation of the decodings |
| Network.DecodeAllExact | modules/network/src/lib.rs:710-720 | when every frame decodes, the drain yields one message per frame, in order |
| Network.DecodeAllShorter | modules/network/src/lib.rs:710-720 | undecodable frames are skipped, never invented: at most one message per frame |
| Network.DecodeAllFromExact | modules/network/src/lib.rs:726-737 | a server-side drain yields each frame's sender with its decoded message, in arrival order |
| Network.PushFrame | modules/network/src/lib.rs:579-587 | routing never adds or removes a buffer |
| Network.Offer | modules/network/src/lib.rs:327-349 | an empty sender slot reports Closed and queues nothing; otherwise the send is offered and reported as Ok, BufferFull or Closed as the channel reports it |
| Network.AllClosed | modules/network/src/lib.rs:660-667 | disconnecting empties every client-to-server sender slot and drops none |
| Network.ClientBatchPartition | modules/network/src/lib.rs:822-879 | every event a client drain consumes is either written now or deferred as a stream-ready tag, and no sentinel is written in the frame it arrived |
| Network.RouteFramesPerTag | modules/network/src/lib.rs:836-858 | after a batch, each registered buffer holds what it held plus exactly that batch's frames for its tag, in arrival order |
| Network.ServerBatchPartition | modules/network/src/lib.rs:775-819 | the events a server drain writes and the client stream frames it routes together number exactly the consumed events; no frame is written, and a batch without frames is written unchanged |
| Network.ServerBatchSplit | modules/network/src/lib.rs:775-819 | the written events and the routed frames together are exactly the consumed events, as a multiset |
| Network.RouteClientFramesPerTag | modules/network/src/lib.rs:591-601 | each registered client-stream buffer gains exactly the batch's frames for its tag, with their senders, in order |
| Network.BatchesCoverQueue | modules/network/src/lib.rs:741-741 | successive frames drain a queue losing and reordering nothing; every batch holds at most 100 events and only the last can hold fewer |
| Network.CapOf150 | modules/network/src/lib.rs:992-1034 | 150 queued events are drained as 100 and then 50 |
| Network.StreamRegistry.constructor | modules/network/src/lib.rs:496-505 | a new registry has no streams, no buffers, no live sender and nothing deferred |
| Network.StreamRegistry.Register | modules/network/src/lib.rs:519-575 | tag 0 and already-registered tags are refused and change nothing; otherwise exactly one entry is appended, a server-to-client stream gets an empty buffer, a client-to-server stream gets an empty buffer plus an empty sender slot, and the server-to-client count rises only for the former |
| Network.StreamRegistry.RouteStreamFrame | modules/network/src/lib.rs:579-587 | a frame for a registered tag goes to the back of its buffer; an unregistered tag changes no buffer |
| Network.StreamRegistry.RouteClientStreamFrame | modules/network/src/lib.rs:591-601 | a client frame for a registered tag goes, with its sender, to the back of its buffer; an unregistered tag changes nothing |
| Network.StreamRegistry.ServerToClientCount | modules/network/src/lib.rs:605-612 | the count is the number of server-to-client tags and at most 255 |
| Network.StreamRegistry.PrepareServerStart | modules/network/src/lib.rs:617-628 | every server-to-client sender becomes live on one fresh channel of capacity 512; the definitions are returned |
| Network.StreamRegistry.OnServerStop | modules/network/src/lib.rs:632-635 | the server-to-client senders lose their channel, so later sends report Closed |
| Network.StreamRegistry.PrepareClientConnect | modules/network/src/lib.rs:640-656 | each client-to-server stream gets a fresh channel, and their tags are returned in registration order |
| Network.StreamRegistry.OnClientDisconnect | modules/network/src/lib.rs:660-667 | every client-to-server sender slot is emptied |
| Network.StreamRegistry.DeferStreamReady | modules/network/src/lib.rs:671-677 | the tag joins the back of the deferred list |
| Network.StreamRegistry.TakeDeferredReady | modules/network/src/lib.rs:680-682 | the deferred tags are handed over in order and none are left |
| Network.StreamRegistry.SendStreamReadyTo | modules/network/src/lib.rs:379-399 | on a client-to-server stream it reports Closed and queues nothing; otherwise it offers the sentinel addressed to the one client |
| Network.StreamRegistry.SendTo | modules/network/src/lib.rs:409-425 | wrong direction: Closed and nothing queued; encoder failure: Encode; otherwise exactly one addressed write is offered to the shared channel |
| Network.StreamRegistry.Broadcast | modules/network/src/lib.rs:430-445 | as `SendTo`, with a write to every client |
| Network.StreamRegistry.SendToServerTask | modules/network/src/lib.rs:327-349 | the shared guard of the three server-side sends: direction first, then encoding, then the offer |
| Network.StreamRegistry.Send | modules/network/src/lib.rs:451-464 | on a server-to-client stream it reports Closed; otherwise the frame is offered to that stream's own sender slot, and an empty slot reports Closed |
| Network.StreamRegistry.Drain | modules/network/src/lib.rs:710-720 | the reader's buffer is emptied and its frames are returned decoded, in FIFO order, undecodable ones skipped |
| Network.StreamRegistry.DrainFromClient | modules/network/src/lib.rs:726-737 | the client-stream buffer is emptied and its frames are returned with their senders, in FIFO order |
| Network.StreamRegistry.DrainClientEvents | modules/network/src/lib.rs:822-879 | the tags deferred last frame are written first; then at most 100 events are consumed, the rest stays queued in order, frames are routed, a disconnect closes the client senders, and sentinels are deferred to the next frame instead of being written |
| Network.StreamRegistry.DrainServerEvents | modules/network/src/lib.rs:775-819 | at most 100 events are consumed and the rest stays queued in order; client frames are routed and not written; hosting-stopped disconnects the stream senders |
| Tiles.CoordToIndex | modules/tiles/src/lib.rs:51-57 | an index exists exactly for in-bounds coordinates and is `y * width + x`, below `width * height` |
| Tiles.CoordIndexRoundTrip | modules/tiles/src/lib.rs:51-57 | the coordinate recovered from an in-bounds coordinate's index is that coordinate |
| Tiles.IndexCoordRoundTrip | modules/tiles/src/lib.rs:51-57 | every index below `width * height` is the index of exactly the coordinate it decodes to |
| Tiles.CoordToIndexInjective | modules/tiles/src/lib.rs:51-57 | distinct in-bounds coordinates have distinct indices |
| Tiles.Lookup | modules/tiles/src/lib.rs:59-61 | a lookup is `None` exactly out of bounds and otherwise the cell at the coordinate's index |
| Tiles.Tilemap.constructor | modules/tiles/src/lib.rs:34-49 | the map has the given width and height and every in-bounds cell holds the fill kind |
| Tiles.Tilemap.Get | modules/tiles/src/lib.rs:59-61 | `get` answers exactly for in-bounds positions |
| Tiles.Tilemap.Set | modules/tiles/src/lib.rs:63-70 | in bounds: returns true, the position then holds the kind and every other position is unchanged; out of bounds: returns false and the map is unchanged |
| Tiles.Walkable | modules/tiles/src/lib.rs:16-21 | floor can be walked on and a wall cannot; wall is the only blocking kind |
| Tiles.Tilemap.IsWalkable | modules/tiles/src/lib.rs:72-74 | a position is walkable exactly when it is on the map and holds floor |
| Tiles.Tilemap.RowFromAt | modules/tiles/src/lib.rs:77-85 | a row lists its cells left to right with their kinds |
| Tiles.Tilemap.RowsFromAt | modules/tiles/src/lib.rs:77-85 | the rows from `y` down list every cell at the row-major offset of its coordinate |
| Tiles.Tilemap.Iter | modules/tiles/src/lib.rs:77-85 | the iterator yields exactly `width * height` pairs in row-major order, each with the kind `get` reports |
| GasGrid.GasGrid.constructor | modules/atmospherics/src/gas_grid.rs:36-44 | a new grid has `w * h` cells, all with zero moles and all passable, so its total is zero |
| GasGrid.GasGrid.SyncWalls | modules/atmospherics/src/gas_grid.rs:60-74 | afterwards a cell is passable exactly when the tile map holds floor at its position (off-map positions are impassable), and no cell's moles change |
| GasGrid.GasGrid.PressureAt | modules/atmospherics/src/gas_grid.rs:79-82 | pressure is `None` exactly out of bounds and otherwise the cell's moles times the pressure constant 1 |
| GasGrid.GasGrid.SetMoles | modules/atmospherics/src/gas_grid.rs:86-93 | in bounds: returns true and changes only that cell, and the total changes by the difference; out of bounds: returns false and changes nothing |
| GasGrid.GasGrid.TotalMoles | modules/atmospherics/src/gas_grid.rs:98-100 | the moles of every cell, passable or not, added up; the total is never negative when no cell is |
| GasGrid.SumUpdate | modules/atmospherics/src/gas_grid.rs:98-100 | the total over all cells, passable or not, changes by exactly the difference when one cell is replaced |
| GasGrid.GasGrid.Step | modules/atmospherics/src/gas_grid.rs:104-106 | a step changes nothing, so the total moles are preserved |
| Interactions.MenuChoice | modules/interactions/src/lib.rs:122-125 | a wall offers "Remove Wall" to floor, a floor "Build Wall" to wall; the target always differs from the current kind |
| Interactions.MenuChoiceToggles | modules/interactions/src/lib.rs:122-125 | applying the offered change and opening the menu again offers the way back, under the other label |
| Interactions.RightHits | modules/interactions/src/lib.rs:90-94 | exactly the right-button hits of the batch are kept |
| Interactions.BuildContextMenu | modules/interactions/src/lib.rs:81-157 | without a right-button hit nothing changes; with one, a previous menu is always dismissed, and a new one opens exactly when the last right hit is a tile on the map; it then offers that tile's label and the toggle to the other kind, at the hit's world position |
| Interactions.LastRightHitIsLast | modules/interactions/src/lib.rs:99-100 | the hit the menu uses is a right-button hit after which the batch holds no other |
| Interactions.DismissContextMenu | modules/interactions/src/lib.rs:188-205 | an open menu closes exactly on Escape or a left-button press; otherwise it stays |
| Interactions.HandleMenuSelection | modules/interactions/src/lib.rs:166-176 | one tile-toggle request per selected action, in order, with the action's position and kind |
| Interactions.ResolveActor | modules/interactions/src/lib.rs:377-385 | the first entity controlled by the client, and `None` exactly when there is none |
| Interactions.DispatchAll | modules/interactions/src/lib.rs:239-374 | dispatching a batch keeps the tile map's size |
| Interactions.ToggleRejected | modules/interactions/src/lib.rs:262-277 | a toggle without a tile map, out of bounds, or to the kind already there changes nothing and emits nothing |
| Interactions.ToggleApplied | modules/interactions/src/lib.rs:279-294 | a valid toggle sets exactly that tile, records one mutation, and broadcasts it only when a sender exists |
| Interactions.ItemRequestForwarded | modules/interactions/src/lib.rs:297-371 | an item request never touches tiles and is forwarded once, with the resolved actor and entities, exactly when all its net ids and the actor resolve, with every other output list unchanged; otherwise it is dropped and nothing changes |
| Interactions.BroadcastsMirrorMutations | modules/interactions/src/lib.rs:279-294 | the broadcast tile changes are exactly the applied ones when a sender exists, and none otherwise |
| Interactions.MenuSelectionFlipsTile | modules/interactions/src/lib.rs:166-176 | the action the menu offers for an on-map tile, once selected and dispatched, flips that tile and emits its one mutation |
| Interactions.DispatchInteraction | modules/interactions/src/lib.rs:239-374 | the system's tile writes and emitted events are those of the batch specification, request by request |
| Items.FirstFreeFrom | modules/items/src/lib.rs:48-56 | the lowest empty slot at or after the start, or `None` exactly when every such slot is full |
| Items.FirstHoldingFrom | modules/items/src/lib.rs:59-67 | the lowest slot holding the entity, or `None` exactly when none holds it |
| Items.InsertedHolds | modules/items/src/lib.rs:48-56 | inserting into a container with space keeps the capacity and makes it hold the item |
| Items.RemoveUndoesInsert | modules/items/src/lib.rs:48-67 | removing an item just inserted into a container that did not hold it restores the container |
| Items.RemovedLetsGo | modules/items/src/lib.rs:59-67 | removing an item held once leaves the capacity, leaves the item no longer held, and frees a slot |
| Items.Container.WithCapacity | modules/items/src/lib.rs:30-34 | a new container has the given number of slots, all empty, and that capacity |
| Items.Container.Capacity | modules/items/src/lib.rs:36-39 | the capacity is the number of slots; a container without slots never has space |
| Items.Container.HasSpace | modules/items/src/lib.rs:42-44 | true exactly when some slot is empty |
| Items.Container.Contains | modules/items/src/lib.rs:70-72 | true exactly when some slot holds the entity |
| Items.Container.Insert | modules/items/src/lib.rs:48-56 | fills the lowest empty slot and returns its index, other slots unchanged; a full container returns `None` and is unchanged |
| Items.Container.Remove | modules/items/src/lib.rs:59-67 | empties only the first slot holding the entity and returns true; returns false and changes nothing when it is absent |
| Items.InitHandContainers | modules/items/src/lib.rs:149-153 | each newly added hand slot gets its own one-slot empty container |
| Items.FirstHandWithSpace | modules/items/src/lib.rs:525-544 | the first child that is a hand whose container has space, `None` exactly when there is no such child |
| Items.FirstHandHolding | modules/items/src/lib.rs:548-568 | the first child that is a hand whose container holds the item, `None` exactly when there is no such child |
| Items.HandWithSpaceSound | modules/items/src/lib.rs:525-544 | a reported hand is a child of the actor with space; `None` means the actor has no such hand |
| Items.HandHoldingSound | modules/items/src/lib.rs:548-568 | a reported hand is a child of the actor holding the item; `None` means no hand of the actor holds it |
| Items.PickupAccepted | modules/items/src/lib.rs:200-276 | an accepted pickup had an item that is neither stashed nor parented, with collider and gravity, in range; it puts the item in the actor's first hand with space, emits one event and issues one command that holds the item in that hand |
| Items.DropAccepted | modules/items/src/lib.rs:280-343 | an accepted drop had stashed physics and an in-range drop position; it empties the hand slot that held the item, emits one event and issues one command that places the item in the world at the drop position |
| Items.StoreAccepted | modules/items/src/lib.rs:346-416 | an accepted store had the item in the actor's hand and a reachable container with space; the new container map is the hand's slot emptied and the item inserted into the container, which then holds it, and when the two differ the hand has exactly that item removed; one event and one command that hides the item |
| Items.TakeAccepted | modules/items/src/lib.rs:419-520 | an accepted take had the item in the named container, collider and gravity, range and a hand with space; the new container map is the container's slot emptied and the item inserted into that hand, which then holds it, and when the two differ the container has exactly that item removed; one event and one command that shows the item in that hand |
| Items.RejectedChangesNothing | modules/items/src/lib.rs:200-520 | a request that emits no event leaves every container as it was and issues no command |
| Items.NextItems | modules/items/src/lib.rs:258-265 | applying a frame's commands keeps exactly the same set of items |
| Items.NextItemsOne | modules/items/src/lib.rs:258-265 | one command changes the markers of its own item only, as the command for that item prescribes |
| Items.PickedUpIsHeldNextFrame | modules/items/src/lib.rs:200-276 | once an accepted pickup's commands have run, the item is stashed and parented with no collider or gravity, so every later pickup of it is refused |
| Items.DroppedIsFreeNextFrame | modules/items/src/lib.rs:280-343 | once an accepted drop's commands have run, the item has its collider and gravity back and is neither stashed nor parented |
| Items.StoredItemCannotBeTaken | modules/items/src/lib.rs:481-487 | as written: an item picked up and then stored is still stashed but has no collider or gravity, so every take of it is refused |
| Items.StashAwareTakeAgrees | modules/items/src/lib.rs:481-487 | the corrected take, which also accepts an item whose physics are stashed, agrees with the take as written for any item that has its own collider and gravity |
| Items.StoredItemCanBeTaken | modules/items/src/lib.rs:419-520 | with the corrected take, a picked-up and stored item is taken exactly when the container holds it, the actor has a hand with space and the container is in reach, and the hand then holds it |
| Items.HandleKeepsContainers | modules/items/src/lib.rs:200-276 | a batch of pickups only updates existing containers and emits at most one event per request |
| Items.SameFramePickupsSeeOldComponents | modules/items/src/lib.rs:200-276 | two pickups of one item in one frame both pass, because the stash marker of the first is applied only after the system ran: starting with every item in at most one slot, the item ends up in two hands, with two events and two hold commands |
| Items.GuardedPickupKeepsHeldOnce | modules/items/src/lib.rs:209-216 | with the "already held" check also made against the containers updated this frame, a pickup keeps every item in at most one slot, and an accepted one is exactly the unguarded pickup of an item no container holds |
| Items.GuardedPickupsKeepHeldOnce | modules/items/src/lib.rs:200-276 | with that check, a whole frame of pickups keeps every item in at most one slot |
| Items.FindHandSlotWithSpace | modules/items/src/lib.rs:525-544 | the search loop returns the hand the specification chooses |
| Items.FindHandSlotContaining | modules/items/src/lib.rs:548-568 | the search loop returns the hand the specification chooses |
| Items.ApplyPickup | modules/items/src/lib.rs:200-276 | the containers, events and deferred component commands after a pickup are those of the pickup rule |
| Items.ApplyDrop | modules/items/src/lib.rs:280-343 | the containers, events and deferred component commands after a drop are those of the drop rule |
| Items.ApplyStore | modules/items/src/lib.rs:346-416 | the containers, events and deferred component commands after a store are those of the store rule |
| Items.ApplyTake | modules/items/src/lib.rs:419-520 | the containers, events and deferred component commands after a take are those of the take rule |
| Items.HandleItemInteraction | modules/items/src/lib.rs:169-521 | one frame handles all pickups, then drops, then stores, then takes, with the containers updated in place in between; the events and the deferred component commands are those of the four rules, in that order |
| Souls.FirstSoulFor | modules/souls/src/lib.rs:118-135 | the index of the first soul of the client, `None` exactly when the client has none |
| Souls.FindSoul | modules/souls/src/lib.rs:145-155 | the first-match loop with `break` returns the first soul of the client |
| Souls.StopZeroesBound | modules/souls/src/lib.rs:118-135 | after departures, a creature's input is zero exactly when it was the first soul's creature of a leaving client and is unchanged otherwise |
| Souls.Route | modules/souls/src/lib.rs:145-155 | routing never adds or removes creatures' inputs |
| Souls.RouteOnlyBound | modules/souls/src/lib.rs:145-155 | a creature no soul is bound to keeps its input |
| Souls.LastInputWins | modules/souls/src/lib.rs:145-155 | the creature of the last sender's first soul ends with that sender's last direction |
| Souls.SpawnBroadcasts | modules/souls/src/lib.rs:90-97 | one spawn broadcast per join, with consecutive net ids, the joining client as owner and its name |
| Souls.NewSouls | modules/souls/src/lib.rs:62-87 | one soul per join, naming the joining client and bound to its new creature |
| Souls.BindCreatesOneCreaturePerJoin | modules/souls/src/lib.rs:62-87 | every join creates its own creature with the next net id, owner and name, and a zero input |
| Souls.SoulWorld.BindSoul | modules/souls/src/lib.rs:56-104 | each join consumes exactly one net id, creates one soul and one creature, and broadcasts one spawn with the same net id, owner and name |
| Souls.SoulWorld.BindOne | modules/souls/src/lib.rs:62-97 | one join: the next net id, a new creature with zero input, its soul, and its spawn broadcast |
| Souls.SoulWorld.UnbindSoul | modules/souls/src/lib.rs:112-136 | only the first soul of each leaving client is despawned and its creature's input zeroed; creatures stay |
| Souls.SoulWorld.RouteInput | modules/souls/src/lib.rs:140-155 | each direction goes only to the creature of the sender's first soul; without one nothing changes |
| Souls.InputSendState.constructor | modules/souls/src/lib.rs:170-172 | the last direction sent starts as zero |
| Souls.InputSendState.SendInput | modules/souls/src/lib.rs:178-208 | a send is attempted exactly with a sender, a fired timer, exactly one controlled creature and a new direction; the direction is recorded first, whatever the send's outcome (src/client.rs:147-177 repeats this rule) |
| LogLevel.ParseLogLevel | bins/server/src/main.rs:11-19 | "trace", "debug", "warn" or "warning", and "error", in any ASCII letter case, give their levels; everything else gives INFO |
| LogLevel.ParseIgnoresCase | bins/client/src/main.rs:19-27 | the parse depends only on the lowercased string |
| LogLevel.NameRoundTrip | src/main.rs:18-26 | each level's name parses back to the level, in lower or upper case |
| LogLevel.AliasAndDefault | bins/server/src/main.rs:16-18 | "WARNING" gives WARN; the empty string and "verbose" give INFO |
| LogLevel.LowerIdempotent | src/main.rs:19-19 | lowercasing twice is lowercasing once |
| Replication.FirstWithKey | src/client.rs:124-129 | the index of the first replica with the net id, `None` exactly when none has it |
| Replication.Without | src/client.rs:122-130 | applying despawns keeps exactly the replicas not despawned |
| Replication.Flush | src/network_events.rs:214-285 | after the commands apply, the rows are the surviving rows and the queued spawns, and nothing stays queued |
| Replication.KnownSameRows | src/client.rs:93-100 | tables with the same replicas answer the presence check alike |
| Replication.MoveAllKeepsRows | src/client.rs:131-140 | a state update changes positions only: same replicas, same order, commands untouched |
| Replication.MoveAllOnlyListed | src/client.rs:131-140 | a replica whose net id no update names keeps its position |
| Replication.DropKeepsDistinct | src/network_events.rs:265-273 | removing one replica keeps net ids distinct |
| Replication.WithoutKeepsDistinct | src/network_events.rs:265-273 | despawning keeps net ids distinct |
| Replication.FlushKeepsKeysDistinct | src/network_events.rs:214-285 | applying the commands keeps net ids distinct when the rows and queued spawns have distinct ids |
| Replication.SpawnFreshKeepsDistinct | src/network_events.rs:232-253 | spawning a net id that is neither visible nor queued keeps net ids distinct |
| Replication.ReplicaWorld.constructor | src/network_events.rs:214-285 | the client world starts with no replicas and nothing queued |
| Replication.ReplicaWorld.Exists | src/network_events.rs:232-240 | the presence loop answers exactly whether a visible replica has the net id |
| Replication.ReplicaWorld.Find | src/network_events.rs:265-273 | the first-match loop returns the first visible replica with the net id |
| Replication.ReplicaWorld.Spawn | src/network_events.rs:245-247 | a spawn is queued with a fresh entity |
| Replication.DespawnOnlyFirst | src/client.rs:122-128 | with entities distinct and nothing queued, a replica survives a despawn of a net id and the commands that follow exactly when it is not the first visible replica with that net id (src/network_events.rs:265-272 follows the same rule) |
| Replication.ReplicaWorld.DespawnFirst | src/network_events.rs:265-273 | only the first replica with the net id is queued for despawn |
| Replication.ReplicaWorld.MoveListed | src/network_events.rs:274-283 | each listed net id's first replica takes the listed position |
| Replication.ReplicaWorld.ApplyCommands | src/network_events.rs:214-285 | the queued commands apply after the system ran |
| LegacyProtocol.UpdatesOf | src/network_events.rs:274-283 | a state update writes each entity's position, in the update's order |
| LegacyProtocol.Enqueue | modules/network/src/lib.rs:179-195 | an open channel gets the commands behind what it held, in order; a closed one keeps what it held |
| LegacyProtocol.EnqueueAppend | modules/network/src/lib.rs:179-195 | sending two runs of commands one after the other queues their concatenation |
| LegacyProtocol.BroadcastState | src/network_events.rs:290-316 | with a sender and a fired timer the collected states go out in one broadcast; an empty collection or no sender sends nothing (src/server.rs:184-210 and src/net_game.rs:240-267 repeat this rule) |
| NetworkEvents.CatchUp | src/network_events.rs:153-165 | one catch-up spawn per existing entity, in query order, each to the greeting client and never flagged as controlled |
| NetworkEvents.HelloSequence | src/network_events.rs:137-195 | a hello sends, in order and all to the greeting client, its welcome, the catch-up spawns, and its own spawn flagged as controlled (the only such spawn), then broadcasts the same id unflagged |
| NetworkEvents.HellosConsumeOneIdEach | src/network_events.rs:137-195 | each hello consumes exactly one net id when a sender exists; without one a batch sends nothing and consumes none |
| NetworkEvents.HandleClientMessage | src/network_events.rs:123-212 | a hello with a sender consumes one id and sends the hello sequence; an input, or a hello without a sender, sends nothing and consumes nothing |
| NetworkEvents.HandleServerEvents | src/network_events.rs:48-91 | the system's counter, commands, connect requests, menu events and server removal are those of the batch specification, event by event |
| NetworkEvents.HandleServerMessage | src/network_events.rs:214-285 | the local id and replica table after one message are those of the message rule |
| NetworkEvents.HandleClientEvents | src/network_events.rs:93-121 | connection events set the requested state and menu events, server messages update the replicas, event by event |
| NetworkEvents.WelcomeThenControlledSpawn | src/network_events.rs:221-263 | a welcome earlier in the batch makes a later controlled spawn this client's player |
| NetworkEvents.ControlNeedsLocalId | src/network_events.rs:254-263 | with no local id yet, a controlled spawn attaches no control markers |
| NetworkEvents.OwnerSpawnsTwice | src/network_events.rs:232-240 | as written: the welcome, the owner's spawn and its broadcast copy, drained together, replicate net id 1 twice |
| NetworkEvents.GuardedStepKeepsKeysDistinct | src/network_events.rs:232-240 | with the intended guard, one event keeps the net ids of rows and queued spawns distinct |
| NetworkEvents.GuardedBatchKeepsNetIdsUnique | src/network_events.rs:232-240 | with the intended guard, a batch never replicates a net id twice, before or after the commands apply |
| LegacyClient.OwnerTags | src/client.rs:105-120 | a replica is controlled exactly when it has an owner equal to the local id, and the owner is always recorded |
| LegacyClient.LastConnectionEventWins | src/client.rs:46-72 | the requested state is the one the last connection event asks for (in game after a connect, main menu after a disconnect or an error); a batch without one requests nothing |
| LegacyClient.HandleServerMessage | src/client.rs:74-142 | the local id and replica table after one message are those of the message rule |
| LegacyClient.HandleClientEvents | src/client.rs:46-72 | the requested state, local id and replicas after a batch are those of the batch specification |
| LegacyClient.BatchSpawnsOnlyUnknown | src/client.rs:74-142 | across a batch the visible replicas keep their identity, queued spawns only grow, each new spawn has a net id not visible before, and control implies a recorded owner |
| LegacyServer.CatchUp | src/server.rs:92-103 | one catch-up spawn per existing entity, to the new client, in query order |
| LegacyServer.ConnectStep | src/server.rs:89-152 | one connection keeps every control assignment right behind the broadcast spawn of the same entity and the assigned ids distinct and below the counter |
| LegacyServer.ConnectionsGetFreshIds | src/server.rs:82-153 | each connection consumes exactly one id and other events none; every assignment follows its spawn and no two clients are assigned the same id |
| LegacyServer.SendConnect | src/server.rs:89-152 | a connection sends welcome, catch-up, the spawn broadcast and the control assignment, in that order, and consumes one id |
| LegacyServer.ReceiveClientMessages | src/server.rs:71-154 | without a sender nothing happens; with one, the counter and commands are those of the batch specification |
| NetGame.DefaultRole | src/net_game.rs:15-26 | the initial role runs neither the server-side nor the client-side systems |
| NetGame.WarnsAtMostOnce | src/net_game.rs:63-102 | while the local peer's entity is missing, the warning is logged at most once, and not at all once logged |
| NetGame.HostPlayerWarned.constructor | src/net_game.rs:56-58 | the warning flag starts cleared |
| NetGame.HostPlayerWarned.SpawnHostPlayer | src/net_game.rs:63-102 | the flag, warning and tagged entity follow the host-player rule |
| NetGame.IntroduceToNew | src/net_game.rs:156-165 | one introduction per pre-existing peer to the new peer, at its current position |
| NetGame.IntroduceToExisting | src/net_game.rs:167-176 | the new peer is introduced to each pre-existing peer |
| NetGame.ConnectIntroducesKnown | src/net_game.rs:144-176 | every introduction on one connection involves a peer visible to the system |
| NetGame.BatchIntroducesOnlyExisting | src/net_game.rs:106-179 | connections leave the visible peers alone, and every introduction the batch sends involves a peer that existed before the system ran |
| NetGame.SameBatchPeersNotIntroduced | src/net_game.rs:106-179 | two new peers connecting in one batch are never introduced to each other |
| NetGame.SendIntroductionsToNew | src/net_game.rs:156-165 | the loop sends exactly the introductions to the new peer |
| NetGame.SendIntroductionsToExisting | src/net_game.rs:167-176 | the loop sends exactly the introductions to the pre-existing peers |
| NetGame.ConnectPeer | src/net_game.rs:118-177 | one connection queues the new peer's entity and sends welcome, PeerJoined(self) and the introductions, in order |
| NetGame.HandlePeerConnected | src/net_game.rs:106-179 | without a sender nothing happens; with one, the peers and commands are those of the batch specification |
| NetGame.LeftBroadcastsAppend | src/net_game.rs:193-206 | departures broadcast in event order |
| NetGame.EveryDepartureBroadcast | src/net_game.rs:183-207 | every departure is broadcast, found or not, and only visible peers' entities are queued for despawn |
| NetGame.HandlePeerDisconnected | src/net_game.rs:183-207 | without a sender nothing happens; with one, the peers and commands are those of the departure specification |
| NetGame.PeerUpdates | src/net_game.rs:379-389 | a state update writes each peer's position, in order |
| NetGame.WelcomeSeenInSameBatch | src/net_game.rs:325-367 | a welcome takes effect at once: a later join for the same id in the batch is this client's player |
| NetGame.HostEventsAppend | src/net_game.rs:325-393 | handling a batch in two parts is handling it in one |
| NetGame.WelcomeGovernsRestOfBatch | src/net_game.rs:329-330 | after a welcome anywhere in a batch, with no further welcome, the local id and inserted resource are its peer and every replica queued later is this client's player exactly when it is that peer |
| NetGame.JoinTwiceSpawnsTwice | src/net_game.rs:334-334 | two joins for one peer that is not yet visible, in one batch, queue two replicas of it |
| NetGame.OnlyOwnPlayerControlled | src/net_game.rs:334-367 | with no welcome in the batch, a queued peer is this client's player exactly when it is the local peer, and the visible peers keep their identity |
| NetGame.ReceiveHostMessages | src/net_game.rs:312-393 | the local id follows welcomes at once; the replicas and the inserted local-id resource are those of the batch specification |

## Left out

- Floating-point motion: `apply_remote_input` in src/server.rs and src/net_game.rs, the Input handling of src/network_events.rs:196-210, velocity normalisation, physics and the camera. Positions and directions are only stored and compared.
- The keyboard input read by src/net_game.rs `send_client_input`, which needs the input module.
- Meshes, materials, colliders, `SpawnThing` observers and the replicated `kind` field's meaning: spawned replicas record only the entity, net id, position and markers.
- Query filters such as `With<Creature>` or `With<Thing>`: every spawned replica is assumed to satisfy them.
- Logging, including the warn-once static of the drain systems; the warning of `spawn_host_player` is an output flag.
- The Bevy `Timer` internals: a timer is a boolean "fired" input.
- Message encoding and decoding (an external library): stream payloads are bytes, and an encoder failure is an absent payload.
- The async network tasks of modules/network/src/client.rs and modules/network/src/server.rs (concurrency and I/O); their only decisions reach the model as distinct stream-frame and stream-ready events.
- `process_net_commands` (modules/network/src/lib.rs:882-967), which starts and stops the async tasks.
- The initial-sync barrier: its implementation is not in the repository files this model covers.
- Configuration, TLS and runtime setup, the UI, menus and rendering, world setup and the tile mesh spawning.
- The `LocalPeerId` resource that src/net_game.rs inserts and the `PlayerControlled` marker that `spawn_host_player` inserts are returned as method outputs rather than applied to a world.
- Interactions.BuildContextMenu: the menu's on-screen position and its UI entity are not modelled; its world position, label and action are.
- Items.HandleItemInteraction: the next frame's transforms, visibility and hand-children lists are not derived from the commands; only the item markers are, through `Items.NextItems`.
- GasGrid.GasGrid.SetMoles: moles are real numbers, not 32-bit floats, so the total's rounding is not modelled.
- GasGrid.GasGrid.constructor: requires fewer than 2^31 cells, because beyond that the code's 32-bit index arithmetic overflows; `GasGrid::new` itself accepts any u32 product.
- Tiles.Tilemap.constructor: requires fewer than 2^31 cells, because beyond that the code's 32-bit index arithmetic overflows.
- Leaving the in-game state: replicas spawned by src/network_events.rs, src/client.rs and src/net_game.rs carry `DespawnOnExit(AppState::InGame)`, so the app state change clears them; the model has no app state, and its replica table survives a disconnect.
- Network.Server.NextNetId: the u64 counter's wrap-around after 2^64 ids is not modelled (ids are unbounded); and no operation closes a `NetServerSender` channel, so its closed branch is reached only from a caller-supplied state.
- Network.StreamRegistry.Register: the code panics on tag 0 and duplicate tags; the model returns those as errors and leaves the registry unchanged.

## Findings

| source | as written | input that shows it | evidently intended | confidence | as-written member | corrected member |
|---|---|---|---|---|---|---|
| src/network_events.rs:232-240 | the duplicate-spawn guard looks only at entities already in the world, and spawns are deferred until the system ends | one batch with Welcome(7), EntitySpawned(1, controlled) and its broadcast copy EntitySpawned(1, not controlled), as the server sends to a client's own entity | the owner ignores the broadcast copy of its own entity (the comment at src/network_events.rs:187), so each net id is replicated once | not executed | NetworkEvents.OwnerSpawnsTwice | NetworkEvents.GuardedBatchKeepsNetIdsUnique |
| modules/items/src/lib.rs:481-487 | a take requires the item's own Collider and GravityScale, which a pickup removes (lib.rs:261-262) and a store does not restore (lib.rs:399-402) | a pickup of an item in one frame, a store of it into a container in the next, and a take of it from that container after that | a stored item can be taken back, its physics then being those in its stash, as for a pickup | not executed | Items.StoredItemCannotBeTaken | Items.StoredItemCanBeTaken |
| modules/items/src/lib.rs:209-216 | the "already held" check reads the stash and parent markers, which are deferred commands applied only after the system ran | one frame with two pickup requests for the same item by an actor with two empty hands | an item that is already held, including one picked up earlier in the same frame, is rejected, so it is never in two containers | not executed | Items.SameFramePickupsSeeOldComponents | Items.GuardedPickupsKeepHeldOnce |

The system methods `Items.HandleItemInteraction` and `NetworkEvents.HandleClientEvents` keep modelling the code as written. The corrected rules, `Items.GuardedPickupAll`, `Items.StashAwareTakeStep` and `NetworkEvents.ClientEventsAllGuarded`, are separate specification functions, and the properties above are proved about them.

The presence check that the first row is about has the same shape in src/client.rs:93-100 and src/net_game.rs:334: it reads only the replicas already in the world, so two spawns of one id in a batch queue two replicas (`NetGame.JoinTwiceSpawnsTwice`). No sender in these files puts two such messages for one id in one client's batch: src/server.rs:89-152 broadcasts each new entity once, and src/net_game.rs:118-177 sends a new peer's join to itself once and to each other peer once. It is therefore not listed as a finding.
