/**
 * The client plugin of the older game: connection events drive the
 * application state, and replication messages carrying an explicit
 * owner maintain the replica table.  A replica is player-controlled
 * exactly when its owner is this client; any owner is recorded.
 */
module LegacyClient {
  import opened Wrappers
  import opened World
  import Network
  import opened Replication
  import opened LegacyProtocol

  datatype ServerMessage =
    | Welcome(clientId: Network.ClientId)
    | EntitySpawned(netId: Network.NetId, kind: nat, position: Vec3, velocity: Vec3, owner: Option<Network.ClientId>)
    | EntityDespawned(netId: Network.NetId)
    | StateUpdate(entities: seq<EntityState>)

  /** The marker components of a new replica: controlled iff owned by this client, owner always recorded. */
  function OwnerTags(owner: Option<Network.ClientId>, localId: Option<Network.ClientId>): (t: Tags)
    ensures t.playerControlled <==> owner.Some? && owner == localId
    ensures t.controlledBy == owner
  {
    Tags(owner == localId && owner.Some?, owner)
  }

  /** The local id and replica table after one server message. */
  function OnServerMessage(localId: Option<Network.ClientId>, t: Table, m: ServerMessage)
    : (Option<Network.ClientId>, Table)
  {
    match m
    case Welcome(id) => (Some(id), t)
    case EntitySpawned(netId, _, position, _, owner) =>
      if Known(t.rows, netId) then (localId, t)
      else (localId, QueueSpawn(t, netId, position, OwnerTags(owner, localId)))
    case EntityDespawned(netId) => (localId, QueueDespawnFirst(t, netId))
    case StateUpdate(states) => (localId, MoveAll(t, UpdatesOf(states)))
  }

  /** The state a connection event requests, if it requests one. */
  function StateRequest(ev: ClientEvent<ServerMessage>): Option<AppState> {
    match ev
    case Connected => Some(InGame)
    case Disconnected(_) => Some(MainMenu)
    case ClientError(_) => Some(MainMenu)
    case ServerMessageReceived(_) => None
  }

  datatype ClientSide = ClientSide(localId: Option<Network.ClientId>, table: Table, nextState: Option<AppState>)

  function OnClientEvent(s: ClientSide, ev: ClientEvent<ServerMessage>): ClientSide {
    match ev
    case Connected => s.(nextState := Some(InGame))
    case Disconnected(_) => s.(nextState := Some(MainMenu))
    case ClientError(_) => s.(nextState := Some(MainMenu))
    case ServerMessageReceived(m) =>
      var (id, t) := OnServerMessage(s.localId, s.table, m);
      s.(localId := id, table := t)
  }

  function ClientEventsAll(s: ClientSide, evs: seq<ClientEvent<ServerMessage>>): ClientSide {
    if |evs| == 0 then s else OnClientEvent(ClientEventsAll(s, evs[..|evs| - 1]), evs[|evs| - 1])
  }

  /**
   * The state requested by a batch is the one its last connection event
   * asks for: in game after a connect, the main menu after a disconnect
   * or an error; a batch without one requests nothing new.
   */
  lemma {:induction false} LastConnectionEventWins(s: ClientSide, evs: seq<ClientEvent<ServerMessage>>)
    ensures var r := ClientEventsAll(s, evs).nextState;
      ((forall i :: 0 <= i < |evs| ==> StateRequest(evs[i]).None?) ==> r == s.nextState)
      && (forall i :: (0 <= i < |evs| && StateRequest(evs[i]).Some?
                       && forall j :: i < j < |evs| ==> StateRequest(evs[j]).None?)
            ==> r == StateRequest(evs[i]))
  {
    if |evs| > 0 {
      var pre := evs[..|evs| - 1];
      LastConnectionEventWins(s, pre);
      assert forall i :: 0 <= i < |pre| ==> pre[i] == evs[i];
    }
  }

  /** `handle_server_message` for one message. */
  method HandleServerMessage(m: ServerMessage, client: Network.Client, world: ReplicaWorld)
    modifies client, world
    ensures (client.localId, world.State()) == OnServerMessage(old(client.localId), old(world.State()), m)
  {
    match m
    case Welcome(id) =>
      client.localId := Some(id);
    case EntitySpawned(netId, _, position, _, owner) =>
      var present := world.Exists(netId);
      if present {
        return;
      }
      var controlled := owner == client.localId && owner.Some?;
      world.Spawn(netId, position, Tags(controlled, owner));
    case EntityDespawned(netId) =>
      world.DespawnFirst(netId);
    case StateUpdate(states) =>
      world.MoveListed(UpdatesOf(states));
  }

  /** `handle_client_events`. */
  method HandleClientEvents(events: seq<ClientEvent<ServerMessage>>, client: Network.Client, world: ReplicaWorld)
    returns (nextState: Option<AppState>)
    modifies client, world
    ensures ClientSide(client.localId, world.State(), nextState)
      == ClientEventsAll(ClientSide(old(client.localId), old(world.State()), None), events)
  {
    nextState := None;
    for k := 0 to |events|
      invariant ClientSide(client.localId, world.State(), nextState)
        == ClientEventsAll(ClientSide(old(client.localId), old(world.State()), None), events[..k])
    {
      assert events[..k + 1][..k] == events[..k];
      match events[k]
      case Connected => nextState := Some(InGame);
      case Disconnected(_) => nextState := Some(MainMenu);
      case ClientError(_) => nextState := Some(MainMenu);
      case ServerMessageReceived(m) => HandleServerMessage(m, client, world);
    }
    assert events[..|events|] == events;
  }

  /**
   * Across a batch the visible replicas keep their entities, keys and
   * markers, queued spawns only grow, and every replica the batch queues
   * has a net id that was not visible when the batch started: a spawn
   * for a present net id is ignored.  A queued replica that is
   * player-controlled records an owner.
   */
  lemma {:induction false} BatchSpawnsOnlyUnknown(s: ClientSide, evs: seq<ClientEvent<ServerMessage>>)
    ensures var r := ClientEventsAll(s, evs).table;
      SameRows(s.table.rows, r.rows)
      && |r.spawns| >= |s.table.spawns| && r.spawns[..|s.table.spawns|] == s.table.spawns
      && forall i :: |s.table.spawns| <= i < |r.spawns| ==>
           !Known(s.table.rows, r.spawns[i].key)
           && (r.spawns[i].tags.playerControlled ==> r.spawns[i].tags.controlledBy.Some?)
  {
    if |evs| > 0 {
      var pre := ClientEventsAll(s, evs[..|evs| - 1]);
      BatchSpawnsOnlyUnknown(s, evs[..|evs| - 1]);
      var ev := evs[|evs| - 1];
      if ev.ServerMessageReceived? {
        match ev.message {
          case EntitySpawned(netId, _, position, _, owner) =>
            KnownSameRows(s.table.rows, pre.table.rows, netId);
          case StateUpdate(states) =>
            MoveAllKeepsRows(pre.table, UpdatesOf(states));
          case _ =>
        }
      }
    }
  }
}
