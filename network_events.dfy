/**
 * The networking glue of the older single-crate game: server-side
 * handling of hosting events and client hellos, client-side handling of
 * connection events and replication messages.  A client hello is
 * answered with a welcome, one catch-up spawn per existing entity, the
 * new entity's spawn with the control flag, and a broadcast of that
 * spawn without it.
 */
module NetworkEvents {
  import opened Wrappers
  import opened World
  import Network
  import opened Replication
  import opened LegacyProtocol

  /** Where the server places a newly greeted client's entity. */
  const SPAWN_POS: Vec3 := Vec3(6.0, 0.86, 3.0)
  /** The address a listen server connects its own client to. */
  const LOOPBACK: seq<nat> := [127, 0, 0, 1]

  datatype ServerMessage =
    | Welcome(clientId: Network.ClientId)
    | EntitySpawned(netId: Network.NetId, kind: nat, position: Vec3, velocity: Vec3, controlled: bool)
    | EntityDespawned(netId: Network.NetId)
    | StateUpdate(entities: seq<EntityState>)

  datatype ClientMessage = Hello | Input(direction: Vec3)

  /** A command to the networking layer. */
  datatype NetCommand = Connect(ip: seq<nat>, port: nat)

  type Command = Network.ServerCommand<ServerMessage>

  // ---------------------------------------------------------------------
  // Server side
  // ---------------------------------------------------------------------

  /** The catch-up spawn of an existing entity: never flagged as controlled. */
  function CatchUpSpawn(to: Network.ClientId, e: EntityState): Command {
    Network.SendTo(to, EntitySpawned(e.netId, 0, e.position, e.velocity, false))
  }

  /** One catch-up spawn per existing entity, in query order. */
  function CatchUp(to: Network.ClientId, entities: seq<EntityState>): (r: seq<Command>)
    ensures |r| == |entities|
    ensures forall i :: 0 <= i < |entities| ==> r[i] == CatchUpSpawn(to, entities[i])
  {
    if |entities| == 0 then []
    else CatchUp(to, entities[..|entities| - 1]) + [CatchUpSpawn(to, entities[|entities| - 1])]
  }

  /** What a hello from `from` sends, when the new entity receives the net id `id`. */
  function HelloCommands(from: Network.ClientId, entities: seq<EntityState>, id: Network.NetId): seq<Command> {
    [Network.SendTo(from, Welcome(from))] + CatchUp(from, entities)
    + [Network.SendTo(from, EntitySpawned(id, 0, SPAWN_POS, ZERO, true)),
       Network.Broadcast(EntitySpawned(id, 0, SPAWN_POS, ZERO, false))]
  }

  /** The server-side outcome of a batch of events. */
  datatype ServerSide = ServerSide(nextNetId: nat, sent: seq<Command>, netCommands: seq<NetCommand>,
                                   menu: seq<MenuEvent>, removeServer: bool)

  /** One server event; a hello needs the sender and consumes one net id even if the channel has closed. */
  function OnServerEvent(s: ServerSide, hasSender: bool, open: bool, entities: seq<EntityState>,
                         ev: ServerEvent<ClientMessage>): ServerSide
  {
    match ev
    case HostingStarted(port) => s.(netCommands := s.netCommands + [Connect(LOOPBACK, port)])
    case HostingStopped => s.(removeServer := true)
    case ServerError(_) => s.(menu := s.menu + [Title])
    case ClientConnected(_, _) => s
    case ClientDisconnected(_) => s
    case ClientMessageReceived(from, message) =>
      if message.Hello? && hasSender
      then s.(nextNetId := s.nextNetId + 1, sent := Enqueue(open, s.sent, HelloCommands(from, entities, s.nextNetId)))
      else s
  }

  function ServerEventsAll(s: ServerSide, hasSender: bool, open: bool, entities: seq<EntityState>,
                           evs: seq<ServerEvent<ClientMessage>>): ServerSide
  {
    if |evs| == 0 then s
    else OnServerEvent(ServerEventsAll(s, hasSender, open, entities, evs[..|evs| - 1]),
                       hasSender, open, entities, evs[|evs| - 1])
  }

  /** The number of hellos in a batch. */
  function Hellos(evs: seq<ServerEvent<ClientMessage>>): nat {
    if |evs| == 0 then 0
    else Hellos(evs[..|evs| - 1])
         + (if evs[|evs| - 1].ClientMessageReceived? && evs[|evs| - 1].message.Hello? then 1 else 0)
  }

  /**
   * Everything a hello sends goes to the greeting client except the final
   * broadcast; the welcome comes first, and the only spawn flagged as
   * controlled is the new entity's, sent just before its broadcast.
   */
  lemma HelloSequence(from: Network.ClientId, entities: seq<EntityState>, id: Network.NetId)
    ensures var r := HelloCommands(from, entities, id);
      |r| == |entities| + 3
      && r[0] == Network.SendTo(from, Welcome(from))
      && (forall i :: 0 <= i < |r| - 1 ==> r[i].SendTo? && r[i].client == from)
      && r[|r| - 1] == Network.Broadcast(EntitySpawned(id, 0, SPAWN_POS, ZERO, false))
      && (forall i :: 0 <= i < |r| && r[i].message.EntitySpawned? && r[i].message.controlled ==>
            i == |r| - 2 && r[i].message.netId == id)
  {
    var r := HelloCommands(from, entities, id);
    var c := CatchUp(from, entities);
    forall i | 1 <= i <= |entities|
      ensures r[i] == c[i - 1]
    {
    }
  }

  /**
   * Each hello consumes exactly one net id when a sender exists; without
   * a sender a batch sends nothing and consumes none.
   */
  lemma {:induction false} HellosConsumeOneIdEach(s: ServerSide, hasSender: bool, open: bool,
                                                 entities: seq<EntityState>, evs: seq<ServerEvent<ClientMessage>>)
    ensures ServerEventsAll(s, hasSender, open, entities, evs).nextNetId
            == s.nextNetId + (if hasSender then Hellos(evs) else 0)
    ensures !hasSender ==> ServerEventsAll(s, hasSender, open, entities, evs).sent == s.sent
  {
    if |evs| > 0 {
      HellosConsumeOneIdEach(s, hasSender, open, entities, evs[..|evs| - 1]);
    }
  }

  /** `handle_client_message` for one message; the velocity write of an input is not modelled. */
  method HandleClientMessage(from: Network.ClientId, message: ClientMessage,
                             sender: Network.NetServerSender?<ServerMessage>, server: Network.Server,
                             entities: seq<EntityState>)
    requires server.Valid()
    modifies sender, server
    ensures server.Valid()
    ensures sender != null ==> sender.open == old(sender.open)
    ensures server.nextNetId == if message.Hello? && sender != null then old(server.nextNetId) + 1 else old(server.nextNetId)
    ensures SentOf(sender) ==
      if message.Hello? && sender != null
      then Enqueue(sender.open, old(SentOf(sender)), HelloCommands(from, entities, old(server.nextNetId)))
      else old(SentOf(sender))
  {
    if message.Input? {
      return;
    }
    if sender == null {
      return;
    }
    ghost var s0 := sender.sent;
    sender.SendTo(from, Welcome(from));
    for i := 0 to |entities|
      invariant sender.open == old(sender.open)
      invariant sender.open ==> sender.sent == s0 + [Network.SendTo(from, Welcome(from))] + CatchUp(from, entities[..i])
      invariant !sender.open ==> sender.sent == s0
      modifies sender
    {
      assert entities[..i + 1][..i] == entities[..i];
      var e := entities[i];
      sender.SendTo(from, EntitySpawned(e.netId, 0, e.position, e.velocity, false));
    }
    assert entities[..|entities|] == entities;
    var id := server.NextNetId();
    sender.SendTo(from, EntitySpawned(id, 0, SPAWN_POS, ZERO, true));
    sender.Broadcast(EntitySpawned(id, 0, SPAWN_POS, ZERO, false));
  }

  /** `handle_server_events`: hosting events become commands, hellos are answered. */
  method HandleServerEvents(events: seq<ServerEvent<ClientMessage>>, sender: Network.NetServerSender?<ServerMessage>,
                            server: Network.Server, entities: seq<EntityState>)
    returns (netCommands: seq<NetCommand>, menu: seq<MenuEvent>, removeServer: bool)
    requires server.Valid()
    modifies sender, server
    ensures server.Valid()
    ensures sender != null ==> sender.open == old(sender.open)
    ensures ServerSide(server.nextNetId, SentOf(sender), netCommands, menu, removeServer)
      == ServerEventsAll(ServerSide(old(server.nextNetId), old(SentOf(sender)), [], [], false),
                         sender != null, sender != null && sender.open, entities, events)
  {
    netCommands, menu, removeServer := [], [], false;
    for k := 0 to |events|
      invariant server.Valid()
      invariant sender != null ==> sender.open == old(sender.open)
      invariant ServerSide(server.nextNetId, SentOf(sender), netCommands, menu, removeServer)
        == ServerEventsAll(ServerSide(old(server.nextNetId), old(SentOf(sender)), [], [], false),
                           sender != null, sender != null && sender.open, entities, events[..k])
    {
      assert events[..k + 1][..k] == events[..k];
      match events[k]
      case HostingStarted(port) => netCommands := netCommands + [Connect(LOOPBACK, port)];
      case HostingStopped => removeServer := true;
      case ServerError(_) => menu := menu + [Title];
      case ClientConnected(_, _) =>
      case ClientDisconnected(_) =>
      case ClientMessageReceived(from, message) =>
        HandleClientMessage(from, message, sender, server, entities);
    }
    assert events[..|events|] == events;
  }

  // ---------------------------------------------------------------------
  // Client side
  // ---------------------------------------------------------------------

  /** The marker components of a new replica: control needs both the flag and a known local id. */
  function SpawnTags(controlled: bool, localId: Option<Network.ClientId>): Tags {
    if controlled && localId.Some? then Tags(true, localId) else UNCONTROLLED
  }

  /** The client's local id and replica table after one server message, as the code is written. */
  function OnServerMessage(localId: Option<Network.ClientId>, t: Table, m: ServerMessage)
    : (Option<Network.ClientId>, Table)
  {
    match m
    case Welcome(id) => (Some(id), t)
    case EntitySpawned(netId, _, position, _, controlled) =>
      if Known(t.rows, netId) then (localId, t)
      else (localId, QueueSpawn(t, netId, position, SpawnTags(controlled, localId)))
    case EntityDespawned(netId) => (localId, QueueDespawnFirst(t, netId))
    case StateUpdate(states) => (localId, MoveAll(t, UpdatesOf(states)))
  }

  /** The client-side outcome of a batch: local id, replica table, requested state, menu events. */
  datatype ClientSide = ClientSide(localId: Option<Network.ClientId>, table: Table,
                                   nextState: Option<AppState>, menu: seq<MenuEvent>)

  function OnClientEvent(s: ClientSide, ev: ClientEvent<ServerMessage>): ClientSide {
    match ev
    case Connected => s.(nextState := Some(InGame))
    case Disconnected(_) => s.(nextState := Some(MainMenu), menu := s.menu + [Title])
    case ClientError(_) => s.(menu := s.menu + [Title])
    case ServerMessageReceived(m) =>
      var (id, t) := OnServerMessage(s.localId, s.table, m);
      s.(localId := id, table := t)
  }

  function ClientEventsAll(s: ClientSide, evs: seq<ClientEvent<ServerMessage>>): ClientSide {
    if |evs| == 0 then s else OnClientEvent(ClientEventsAll(s, evs[..|evs| - 1]), evs[|evs| - 1])
  }

  /** `handle_server_message` for one message. */
  method HandleServerMessage(m: ServerMessage, client: Network.Client, world: ReplicaWorld)
    modifies client, world
    ensures (client.localId, world.State()) == OnServerMessage(old(client.localId), old(world.State()), m)
  {
    match m
    case Welcome(id) =>
      client.localId := Some(id);
    case EntitySpawned(netId, _, position, _, controlled) =>
      var present := world.Exists(netId);
      if present {
        return;
      }
      world.Spawn(netId, position, SpawnTags(controlled, client.localId));
    case EntityDespawned(netId) =>
      world.DespawnFirst(netId);
    case StateUpdate(states) =>
      world.MoveListed(UpdatesOf(states));
  }

  /** `handle_client_events`: connection events drive the app state, server messages the replicas. */
  method HandleClientEvents(events: seq<ClientEvent<ServerMessage>>, client: Network.Client, world: ReplicaWorld)
    returns (nextState: Option<AppState>, menu: seq<MenuEvent>)
    modifies client, world
    ensures ClientSide(client.localId, world.State(), nextState, menu)
      == ClientEventsAll(ClientSide(old(client.localId), old(world.State()), None, []), events)
  {
    nextState, menu := None, [];
    for k := 0 to |events|
      invariant ClientSide(client.localId, world.State(), nextState, menu)
        == ClientEventsAll(ClientSide(old(client.localId), old(world.State()), None, []), events[..k])
    {
      assert events[..k + 1][..k] == events[..k];
      match events[k]
      case Connected => nextState := Some(InGame);
      case Disconnected(_) =>
        nextState := Some(MainMenu);
        menu := menu + [Title];
      case ClientError(_) => menu := menu + [Title];
      case ServerMessageReceived(m) => HandleServerMessage(m, client, world);
    }
    assert events[..|events|] == events;
  }

  /** A welcome earlier in the same batch is seen by a later controlled spawn. */
  lemma WelcomeThenControlledSpawn(s: ClientSide, c: Network.ClientId, n: Network.NetId, k: nat, p: Vec3, v: Vec3)
    requires !Known(s.table.rows, n)
    ensures var r := ClientEventsAll(s, [ServerMessageReceived(Welcome(c)),
                                         ServerMessageReceived(EntitySpawned(n, k, p, v, true))]);
      r.localId == Some(c) && r.table.spawns == s.table.spawns + [Replica(s.table.nextEntity, n, p, Tags(true, Some(c)))]
  {
    var evs := [ServerMessageReceived(Welcome(c)), ServerMessageReceived(EntitySpawned(n, k, p, v, true))];
    assert evs[..1] == [evs[0]];
    assert evs[..1][..0] == [];
    assert ClientEventsAll(s, evs[..1][..0]) == s;
    assert OnServerMessage(s.localId, s.table, Welcome(c)) == (Some(c), s.table);
    var s1 := ClientEventsAll(s, evs[..1]);
    assert s1 == OnClientEvent(s, evs[0]);
    assert s1 == s.(localId := Some(c));
  }

  /** With no local id yet, a controlled spawn attaches no control components. */
  lemma ControlNeedsLocalId(t: Table, n: Network.NetId, k: nat, p: Vec3, v: Vec3)
    requires !Known(t.rows, n)
    ensures OnServerMessage(None, t, EntitySpawned(n, k, p, v, true)).1.spawns
            == t.spawns + [Replica(t.nextEntity, n, p, UNCONTROLLED)]
  {
  }

  // The duplicate guard only sees replicas that already exist, not the
  // ones queued earlier in the same batch.

  /**
   * What the owner receives for its own entity when it is alone: the
   * welcome, its controlled spawn and the broadcast copy.  Drained in one
   * batch, the second spawn passes the guard and the owner ends up with
   * two replicas of the same net id.
   */
  lemma OwnerSpawnsTwice()
    ensures var s := ClientSide(None, Table([], [], {}, 0), None, []);
      var evs := [ServerMessageReceived(Welcome(7)),
                  ServerMessageReceived(EntitySpawned(1, 0, SPAWN_POS, ZERO, true)),
                  ServerMessageReceived(EntitySpawned(1, 0, SPAWN_POS, ZERO, false))];
      var rows := Flush(ClientEventsAll(s, evs).table).rows;
      |rows| == 2 && rows[0].key == 1 && rows[1].key == 1 && rows[0].entity != rows[1].entity
  {
    var s := ClientSide(None, Table([], [], {}, 0), None, []);
    var evs := [ServerMessageReceived(Welcome(7)),
                ServerMessageReceived(EntitySpawned(1, 0, SPAWN_POS, ZERO, true)),
                ServerMessageReceived(EntitySpawned(1, 0, SPAWN_POS, ZERO, false))];
    assert evs[..2][..1] == evs[..1] == [evs[0]];
    assert evs[..1][..0] == [];
    assert ClientEventsAll(s, evs[..1][..0]) == s;
    assert OnServerMessage(s.localId, s.table, Welcome(7)) == (Some(7), s.table);
    var s1 := ClientEventsAll(s, evs[..1]);
    assert s1 == OnClientEvent(s, evs[0]);
    assert s1 == s.(localId := Some(7));
    var s2 := ClientEventsAll(s, evs[..2]);
    assert s2.table == Table([], [Replica(0, 1, SPAWN_POS, Tags(true, Some(7)))], {}, 1);
    var s3 := ClientEventsAll(s, evs);
    assert s3.table == Table([], [Replica(0, 1, SPAWN_POS, Tags(true, Some(7))), Replica(1, 1, SPAWN_POS, UNCONTROLLED)], {}, 2);
    assert Without([], {}) == [];
  }

  /** The guard as intended: a net id that is visible or already queued is skipped. */
  function OnServerMessageGuarded(localId: Option<Network.ClientId>, t: Table, m: ServerMessage)
    : (Option<Network.ClientId>, Table)
  {
    match m
    case EntitySpawned(netId, _, position, _, controlled) =>
      if Known(t.rows, netId) || Known(t.spawns, netId) then (localId, t)
      else (localId, QueueSpawn(t, netId, position, SpawnTags(controlled, localId)))
    case _ => OnServerMessage(localId, t, m)
  }

  function OnClientEventGuarded(s: ClientSide, ev: ClientEvent<ServerMessage>): ClientSide {
    match ev
    case ServerMessageReceived(m) =>
      var (id, t) := OnServerMessageGuarded(s.localId, s.table, m);
      s.(localId := id, table := t)
    case _ => OnClientEvent(s, ev)
  }

  function ClientEventsAllGuarded(s: ClientSide, evs: seq<ClientEvent<ServerMessage>>): ClientSide {
    if |evs| == 0 then s else OnClientEventGuarded(ClientEventsAllGuarded(s, evs[..|evs| - 1]), evs[|evs| - 1])
  }

  lemma GuardedStepKeepsKeysDistinct(s: ClientSide, ev: ClientEvent<ServerMessage>)
    requires KeysDistinct(s.table.rows + s.table.spawns)
    ensures var t := OnClientEventGuarded(s, ev).table; KeysDistinct(t.rows + t.spawns)
  {
    match ev
    case ServerMessageReceived(m) =>
      match m {
      case EntitySpawned(netId, _, position, _, controlled) =>
        if !(Known(s.table.rows, netId) || Known(s.table.spawns, netId)) {
          SpawnFreshKeepsDistinct(s.table, netId, position, SpawnTags(controlled, s.localId));
        }
      case StateUpdate(states) =>
        var t := MoveAll(s.table, UpdatesOf(states));
        MoveAllKeepsRows(s.table, UpdatesOf(states));
        var a, b := s.table.rows + s.table.spawns, t.rows + t.spawns;
        forall i | 0 <= i < |a|
          ensures b[i].key == a[i].key
        {
          if i >= |t.rows| {
            assert b[i] == t.spawns[i - |t.rows|];
          }
        }
      case _ =>
      }
    case _ =>
  }

  /**
   * With the intended guard, a batch never queues a second replica for a
   * net id, so after the commands apply every net id is replicated once.
   */
  lemma {:induction false} GuardedBatchKeepsNetIdsUnique(s: ClientSide, evs: seq<ClientEvent<ServerMessage>>)
    requires KeysDistinct(s.table.rows + s.table.spawns)
    ensures var t := ClientEventsAllGuarded(s, evs).table;
      KeysDistinct(t.rows + t.spawns) && KeysDistinct(Flush(t).rows)
  {
    if |evs| > 0 {
      GuardedBatchKeepsNetIdsUnique(s, evs[..|evs| - 1]);
      GuardedStepKeepsKeysDistinct(ClientEventsAllGuarded(s, evs[..|evs| - 1]), evs[|evs| - 1]);
    }
    FlushKeepsKeysDistinct(ClientEventsAllGuarded(s, evs).table);
  }
}
