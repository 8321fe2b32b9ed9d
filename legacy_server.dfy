/**
 * The server plugin of the older game: for every newly connected client
 * it sends a welcome, catches the client up on every replicated entity,
 * allocates the new entity's net id from the server counter, broadcasts
 * its spawn and then tells the client which entity it controls.
 */
module LegacyServer {
  import opened Wrappers
  import opened World
  import Network
  import opened LegacyProtocol

  /** Where a connecting client's entity is announced. */
  const SPAWN_POS: Vec3 := Vec3(6.0, 0.86, 3.0)

  datatype ServerMessage =
    | Welcome(clientId: Network.ClientId)
    | EntitySpawned(netId: Network.NetId, kind: nat, position: Vec3, velocity: Vec3)
    | EntityDespawned(netId: Network.NetId)
    | StateUpdate(entities: seq<EntityState>)
    | AssignControl(netId: Network.NetId)

  datatype ClientMessage = Input(direction: Vec3)

  type Command = Network.ServerCommand<ServerMessage>

  function CatchUp(to: Network.ClientId, entities: seq<EntityState>): (r: seq<Command>)
    ensures |r| == |entities|
    ensures forall i :: 0 <= i < |entities| ==>
      r[i] == Network.SendTo(to, EntitySpawned(entities[i].netId, 0, entities[i].position, entities[i].velocity))
  {
    if |entities| == 0 then []
    else
      var e := entities[|entities| - 1];
      CatchUp(to, entities[..|entities| - 1]) + [Network.SendTo(to, EntitySpawned(e.netId, 0, e.position, e.velocity))]
  }

  /** What a connection of client `id` sends when its entity receives the net id `netId`. */
  function ConnectCommands(id: Network.ClientId, entities: seq<EntityState>, netId: Network.NetId): seq<Command> {
    [Network.SendTo(id, Welcome(id))] + CatchUp(id, entities)
    + [Network.Broadcast(EntitySpawned(netId, 0, SPAWN_POS, ZERO)), Network.SendTo(id, AssignControl(netId))]
  }

  /** The counter and the queued commands after a batch of server events, with a sender present. */
  function ConnectAll(s: (nat, seq<Command>), open: bool, entities: seq<EntityState>,
                      evs: seq<ServerEvent<ClientMessage>>): (nat, seq<Command>)
  {
    if |evs| == 0 then s
    else
      var (n, sent) := ConnectAll(s, open, entities, evs[..|evs| - 1]);
      match evs[|evs| - 1]
      case ClientConnected(id, _) => (n + 1, Enqueue(open, sent, ConnectCommands(id, entities, n)))
      case _ => (n, sent)
  }

  function Connections(evs: seq<ServerEvent<ClientMessage>>): nat {
    if |evs| == 0 then 0
    else Connections(evs[..|evs| - 1]) + (if evs[|evs| - 1].ClientConnected? then 1 else 0)
  }

  /** The control assignment is sent to the new client and names the entity broadcast just before it. */
  predicate AssignsFollowSpawns(cmds: seq<Command>) {
    forall i :: 0 <= i < |cmds| && cmds[i].message.AssignControl? ==>
      cmds[i].SendTo? && 0 < i && cmds[i - 1] == Network.Broadcast(EntitySpawned(cmds[i].message.netId, 0, SPAWN_POS, ZERO))
  }

  /** Every control assignment names a distinct net id below `bound`. */
  predicate AssignedIdsBelow(cmds: seq<Command>, bound: nat) {
    (forall i :: 0 <= i < |cmds| && cmds[i].message.AssignControl? ==> cmds[i].message.netId < bound)
    && (forall i, j :: 0 <= i < j < |cmds| && cmds[i].message.AssignControl? && cmds[j].message.AssignControl?
          ==> cmds[i].message.netId != cmds[j].message.netId)
  }

  lemma ConnectStep(sent: seq<Command>, open: bool, id: Network.ClientId, entities: seq<EntityState>, n: nat)
    requires AssignsFollowSpawns(sent) && AssignedIdsBelow(sent, n)
    ensures AssignsFollowSpawns(Enqueue(open, sent, ConnectCommands(id, entities, n)))
    ensures AssignedIdsBelow(Enqueue(open, sent, ConnectCommands(id, entities, n)), n + 1)
  {
    var c := ConnectCommands(id, entities, n);
    var m := |entities|;
    assert |c| == m + 3;
    forall i | 1 <= i <= m
      ensures c[i].message.EntitySpawned?
    {
      assert c[i] == CatchUp(id, entities)[i - 1];
    }
    if open {
      var r := sent + c;
      forall i | 0 <= i < |r| && r[i].message.AssignControl?
        ensures 0 < i && r[i].SendTo?
        ensures r[i - 1] == Network.Broadcast(EntitySpawned(r[i].message.netId, 0, SPAWN_POS, ZERO))
      {
        if i >= |sent| {
          assert r[i] == c[i - |sent|];
          assert i - |sent| == m + 2;
          assert r[i - 1] == c[m + 1];
        }
      }
    }
  }

  /**
   * Each connection consumes exactly one net id and other events none;
   * every control assignment follows the broadcast spawn of the same
   * entity, and no two clients are assigned the same net id.
   */
  lemma {:induction false} ConnectionsGetFreshIds(s: (nat, seq<Command>), open: bool, entities: seq<EntityState>,
                                                  evs: seq<ServerEvent<ClientMessage>>)
    requires AssignsFollowSpawns(s.1) && AssignedIdsBelow(s.1, s.0)
    ensures var r := ConnectAll(s, open, entities, evs);
      r.0 == s.0 + Connections(evs) && AssignsFollowSpawns(r.1) && AssignedIdsBelow(r.1, r.0)
  {
    if |evs| > 0 {
      ConnectionsGetFreshIds(s, open, entities, evs[..|evs| - 1]);
      var (n, sent) := ConnectAll(s, open, entities, evs[..|evs| - 1]);
      if evs[|evs| - 1].ClientConnected? {
        ConnectStep(sent, open, evs[|evs| - 1].id, entities, n);
      }
    }
  }

  /** The three-step answer to one connection, sent in order. */
  method SendConnect(id: Network.ClientId, sender: Network.NetServerSender<ServerMessage>, server: Network.Server,
                     entities: seq<EntityState>)
    requires server.Valid()
    modifies sender, server
    ensures server.Valid()
    ensures sender.open == old(sender.open)
    ensures server.nextNetId == old(server.nextNetId) + 1
    ensures sender.sent == Enqueue(sender.open, old(sender.sent), ConnectCommands(id, entities, old(server.nextNetId)))
  {
    sender.SendTo(id, Welcome(id));
    for i := 0 to |entities|
      invariant sender.open == old(sender.open)
      invariant sender.open ==> sender.sent == old(sender.sent) + [Network.SendTo(id, Welcome(id))] + CatchUp(id, entities[..i])
      invariant !sender.open ==> sender.sent == old(sender.sent)
      modifies sender
    {
      assert entities[..i + 1][..i] == entities[..i];
      var e := entities[i];
      sender.SendTo(id, EntitySpawned(e.netId, 0, e.position, e.velocity));
    }
    assert entities[..|entities|] == entities;
    var netId := server.NextNetId();
    sender.Broadcast(EntitySpawned(netId, 0, SPAWN_POS, ZERO));
    sender.SendTo(id, AssignControl(netId));
  }

  /** `receive_client_messages`: only connections are handled, and only with a sender. */
  method ReceiveClientMessages(events: seq<ServerEvent<ClientMessage>>, sender: Network.NetServerSender?<ServerMessage>,
                               server: Network.Server, entities: seq<EntityState>)
    requires server.Valid()
    modifies sender, server
    ensures server.Valid()
    ensures sender != null ==> sender.open == old(sender.open)
    ensures sender == null ==> server.nextNetId == old(server.nextNetId)
    ensures sender != null ==>
      (server.nextNetId, sender.sent) == ConnectAll((old(server.nextNetId), old(sender.sent)), sender.open, entities, events)
  {
    if sender == null {
      return;
    }
    for k := 0 to |events|
      invariant server.Valid()
      invariant sender.open == old(sender.open)
      invariant (server.nextNetId, sender.sent)
        == ConnectAll((old(server.nextNetId), old(sender.sent)), sender.open, entities, events[..k])
    {
      assert events[..k + 1][..k] == events[..k];
      if !events[k].ClientConnected? {
        continue;
      }
      SendConnect(events[k].id, sender, server, entities);
    }
    assert events[..|events|] == events;
  }
}
