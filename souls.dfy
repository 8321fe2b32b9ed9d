/**
 * Souls: the server-side binding between a network client and the
 * creature it controls.  A joining client gets a new creature and a soul
 * entity pointing at it; a leaving client's soul is despawned and its
 * creature stops; received input is routed to the bound creature.  On
 * the client, the controlled creature's input direction is sent to the
 * server when it changes.
 */
module Souls {
  import opened Wrappers
  import opened World
  import Network

  type ClientId = nat
  type NetId = nat

  /** Where every new creature is placed. */
  const SPAWN_POS: Vec3 := Vec3(6.0, 0.81, 3.0)

  /** The binding component carried by a soul entity. */
  datatype Soul = Soul(name: string, clientId: ClientId, boundTo: Entity)

  /** The replicated components of a creature spawned for a client. */
  datatype Creature = Creature(netId: NetId, controller: ClientId, displayName: string)

  /** The things-stream message announcing a new entity. */
  datatype ThingsMessage = EntitySpawned(netId: NetId, kind: nat, position: Vec3, velocity: Vec3,
                                         owner: Option<ClientId>, name: Option<string>)

  /** The client-to-server control messages. */
  datatype ClientMessage = Hello(name: string) | Input(direction: Vec3)

  /** The index of the first soul bound for `client`. */
  function FirstSoulFor(souls: seq<(Entity, Soul)>, client: ClientId): (r: Option<nat>)
    ensures r.Some? ==> (r.value < |souls| && souls[r.value].1.clientId == client
                         && forall j :: 0 <= j < r.value ==> souls[j].1.clientId != client)
    ensures r.None? <==> forall j :: 0 <= j < |souls| ==> souls[j].1.clientId != client
  {
    if |souls| == 0 then None
    else if souls[0].1.clientId == client then Some(0)
    else match FirstSoulFor(souls[1..], client)
      case None => None
      case Some(i) => Some(i + 1)
  }

  /** The first-match scan over the souls, stopping at the first soul bound for `client`. */
  method FindSoul(souls: seq<(Entity, Soul)>, client: ClientId) returns (r: Option<nat>)
    ensures r == FirstSoulFor(souls, client)
  {
    var i := 0;
    while i < |souls|
      invariant 0 <= i <= |souls|
      invariant forall j :: 0 <= j < i ==> souls[j].1.clientId != client
    {
      if souls[i].1.clientId == client {
        return Some(i);
      }
      i := i + 1;
    }
    return None;
  }

  /** The soul entities despawned for the clients in `left`. */
  function Unbound(souls: seq<(Entity, Soul)>, left: seq<ClientId>): set<Entity> {
    if |left| == 0 then {}
    else
      var before := Unbound(souls, left[..|left| - 1]);
      match FirstSoulFor(souls, left[|left| - 1])
      case None => before
      case Some(i) => before + {souls[i].0}
  }

  /** The input directions after the creatures of the leaving clients were stopped. */
  function Stop(souls: seq<(Entity, Soul)>, inputs: map<Entity, Vec3>, left: seq<ClientId>): (r: map<Entity, Vec3>)
    ensures r.Keys == inputs.Keys
  {
    if |left| == 0 then inputs
    else
      var before := Stop(souls, inputs, left[..|left| - 1]);
      match FirstSoulFor(souls, left[|left| - 1])
      case None => before
      case Some(i) =>
        var creature := souls[i].1.boundTo;
        if creature in before then before[creature := ZERO] else before
  }

  /** The creature of `client`'s first soul is `e`. */
  predicate BoundFor(souls: seq<(Entity, Soul)>, client: ClientId, e: Entity) {
    FirstSoulFor(souls, client).Some? && souls[FirstSoulFor(souls, client).value].1.boundTo == e
  }

  /** A creature is stopped when it is bound to the first soul of a leaving client. */
  predicate StoppedBy(souls: seq<(Entity, Soul)>, left: seq<ClientId>, e: Entity) {
    exists c :: c in left && BoundFor(souls, c, e)
  }

  lemma StoppedBySplit(souls: seq<(Entity, Soul)>, left: seq<ClientId>, e: Entity)
    requires |left| > 0
    ensures StoppedBy(souls, left, e)
      <==> StoppedBy(souls, left[..|left| - 1], e) || BoundFor(souls, left[|left| - 1], e)
  {
    var pre := left[..|left| - 1];
    if StoppedBy(souls, left, e) {
      var c :| c in left && BoundFor(souls, c, e);
      if c != left[|left| - 1] {
        assert left == pre + [left[|left| - 1]];
        assert c in pre;
      }
    }
    if StoppedBy(souls, pre, e) {
      var c :| c in pre && BoundFor(souls, c, e);
      assert c in left;
    }
  }

  /** Unbinding zeroes the input of exactly the creatures bound to a leaving client's first soul. */
  lemma {:induction false} StopZeroesBound(souls: seq<(Entity, Soul)>, inputs: map<Entity, Vec3>, left: seq<ClientId>)
    ensures forall e :: e in inputs ==>
      Stop(souls, inputs, left)[e] == if StoppedBy(souls, left, e) then ZERO else inputs[e]
  {
    if |left| > 0 {
      StopZeroesBound(souls, inputs, left[..|left| - 1]);
      forall e | e in inputs
        ensures Stop(souls, inputs, left)[e] == if StoppedBy(souls, left, e) then ZERO else inputs[e]
      {
        StoppedBySplit(souls, left, e);
      }
    }
  }

  /** `souls` without the souls whose entity is in `dead`, in the same order. */
  function Without(souls: seq<(Entity, Soul)>, dead: set<Entity>): (r: seq<(Entity, Soul)>)
    ensures forall x :: x in r <==> x in souls && x.0 !in dead
    ensures |r| <= |souls|
  {
    if |souls| == 0 then []
    else
      var rest := Without(souls[..|souls| - 1], dead);
      var last := souls[|souls| - 1];
      assert souls == souls[..|souls| - 1] + [last];
      if last.0 in dead then rest else rest + [last]
  }

  /** The input directions after routing each received input to the creature of the sender's first soul. */
  function Route(souls: seq<(Entity, Soul)>, inputs: map<Entity, Vec3>, events: seq<(ClientId, Vec3)>)
    : (r: map<Entity, Vec3>)
    ensures r.Keys == inputs.Keys
  {
    if |events| == 0 then inputs
    else
      var before := Route(souls, inputs, events[..|events| - 1]);
      var (from, direction) := events[|events| - 1];
      match FirstSoulFor(souls, from)
      case None => before
      case Some(i) =>
        var creature := souls[i].1.boundTo;
        if creature in before then before[creature := direction] else before
  }

  /** Routing never touches an entity that no soul is bound to. */
  lemma {:induction false} RouteOnlyBound(souls: seq<(Entity, Soul)>, inputs: map<Entity, Vec3>,
                                          events: seq<(ClientId, Vec3)>, e: Entity)
    requires e in inputs && forall j :: 0 <= j < |souls| ==> souls[j].1.boundTo != e
    ensures Route(souls, inputs, events)[e] == inputs[e]
  {
    if |events| > 0 {
      RouteOnlyBound(souls, inputs, events[..|events| - 1], e);
    }
  }

  /** The last input received from a client with a soul is the one its creature keeps. */
  lemma LastInputWins(souls: seq<(Entity, Soul)>, inputs: map<Entity, Vec3>, events: seq<(ClientId, Vec3)>)
    requires |events| > 0
    requires var i := FirstSoulFor(souls, events[|events| - 1].0);
      i.Some? && souls[i.value].1.boundTo in inputs
    ensures Route(souls, inputs, events)[souls[FirstSoulFor(souls, events[|events| - 1].0).value].1.boundTo]
      == events[|events| - 1].1
  {
  }

  /** The spawn broadcasts for a batch of joins, given the first NetId handed out. */
  function SpawnBroadcasts(firstNetId: NetId, joined: seq<(ClientId, string)>): (r: seq<ThingsMessage>)
    ensures |r| == |joined|
  {
    seq(|joined|, i requires 0 <= i < |joined| =>
      EntitySpawned(firstNetId + i, 0, SPAWN_POS, ZERO, Some(joined[i].0), Some(joined[i].1)))
  }

  /** The souls spawned for a batch of joins when the allocator stands at `e0`. */
  function NewSouls(e0: Entity, joined: seq<(ClientId, string)>): (r: seq<(Entity, Soul)>)
    ensures |r| == |joined|
  {
    seq(|joined|, i requires 0 <= i < |joined| => (e0 + 2 * i + 1, Soul(joined[i].1, joined[i].0, e0 + 2 * i)))
  }

  /** `creatures` with the creatures spawned for a batch of joins. */
  function AddCreatures(creatures: map<Entity, Creature>, e0: Entity, n0: NetId, joined: seq<(ClientId, string)>)
    : map<Entity, Creature>
  {
    if |joined| == 0 then creatures
    else
      var k := |joined| - 1;
      AddCreatures(creatures, e0, n0, joined[..k])[e0 + 2 * k := Creature(n0 + k, joined[k].0, joined[k].1)]
  }

  /** `inputs` with a zero input direction for every creature spawned for a batch of joins. */
  function AddInputs(inputs: map<Entity, Vec3>, e0: Entity, joined: seq<(ClientId, string)>): map<Entity, Vec3> {
    if |joined| == 0 then inputs
    else
      var k := |joined| - 1;
      AddInputs(inputs, e0, joined[..k])[e0 + 2 * k := ZERO]
  }

  /**
   * Binding the i-th joining client gives it creature `e0 + 2i` with the
   * i-th NetId, its display name and a zero input; every creature that
   * existed before (all below `e0`) is kept as it was.
   */
  lemma {:induction false} BindCreatesOneCreaturePerJoin(creatures: map<Entity, Creature>, inputs: map<Entity, Vec3>,
                                                         e0: Entity, n0: NetId, joined: seq<(ClientId, string)>)
    requires forall e :: e in creatures ==> e < e0
    requires forall e :: e in inputs ==> e < e0
    ensures forall i :: 0 <= i < |joined| ==>
      e0 + 2 * i in AddCreatures(creatures, e0, n0, joined)
      && AddCreatures(creatures, e0, n0, joined)[e0 + 2 * i] == Creature(n0 + i, joined[i].0, joined[i].1)
    ensures forall i :: 0 <= i < |joined| ==>
      e0 + 2 * i in AddInputs(inputs, e0, joined) && AddInputs(inputs, e0, joined)[e0 + 2 * i] == ZERO
    ensures forall e :: e in creatures ==>
      e in AddCreatures(creatures, e0, n0, joined) && AddCreatures(creatures, e0, n0, joined)[e] == creatures[e]
    ensures forall e :: e in inputs ==> e in AddInputs(inputs, e0, joined) && AddInputs(inputs, e0, joined)[e] == inputs[e]
  {
    if |joined| > 0 {
      var k := |joined| - 1;
      BindCreatesOneCreaturePerJoin(creatures, inputs, e0, n0, joined[..k]);
    }
  }

  /**
   * The server's soul-related world state: soul entities in query order,
   * spawned creatures, every `InputDirection` component, the entity
   * allocator and the log of things-stream broadcasts.
   */
  class SoulWorld {
    var souls: seq<(Entity, Soul)>
    var creatures: map<Entity, Creature>
    var inputs: map<Entity, Vec3>
    var nextEntity: nat
    var broadcasts: seq<ThingsMessage>

    /** Every entity in use was handed out by the allocator. */
    ghost predicate Valid()
      reads this
    {
      (forall j :: 0 <= j < |souls| ==> souls[j].0 < nextEntity && souls[j].1.boundTo < nextEntity)
      && (forall e :: e in creatures ==> e < nextEntity)
      && (forall e :: e in inputs ==> e < nextEntity)
    }

    constructor ()
      ensures Valid()
      ensures souls == [] && creatures == map[] && inputs == map[] && broadcasts == []
    {
      souls, creatures, inputs, nextEntity, broadcasts := [], map[], map[], 0, [];
    }

    /**
     * `bind_soul`: for the i-th join, one NetId is taken from the server
     * counter, creature `nextEntity + 2i` and soul `nextEntity + 2i + 1`
     * are spawned, and the creature is announced with its owner and name.
     */
    method BindSoul(joined: seq<(ClientId, string)>, server: Network.Server)
      requires Valid() && server.Valid()
      modifies this, server
      ensures Valid() && server.Valid()
      ensures server.nextNetId == old(server.nextNetId) + |joined|
      ensures nextEntity == old(nextEntity) + 2 * |joined|
      ensures broadcasts == old(broadcasts) + SpawnBroadcasts(old(server.nextNetId), joined)
      ensures souls == old(souls) + NewSouls(old(nextEntity), joined)
      ensures creatures == AddCreatures(old(creatures), old(nextEntity), old(server.nextNetId), joined)
      ensures inputs == AddInputs(old(inputs), old(nextEntity), joined)
    {
      var e0 := nextEntity;
      var n0 := server.nextNetId;
      for k := 0 to |joined|
        invariant Valid() && server.Valid()
        invariant server.nextNetId == n0 + k && nextEntity == e0 + 2 * k
        invariant broadcasts == old(broadcasts) + SpawnBroadcasts(n0, joined[..k])
        invariant souls == old(souls) + NewSouls(e0, joined[..k])
        invariant creatures == AddCreatures(old(creatures), e0, n0, joined[..k])
        invariant inputs == AddInputs(old(inputs), e0, joined[..k])
      {
        var (id, name) := joined[k];
        assert joined[..k + 1][..k] == joined[..k];
        assert SpawnBroadcasts(n0, joined[..k + 1])
          == SpawnBroadcasts(n0, joined[..k]) + [EntitySpawned(n0 + k, 0, SPAWN_POS, ZERO, Some(id), Some(name))];
        assert NewSouls(e0, joined[..k + 1])
          == NewSouls(e0, joined[..k]) + [(e0 + 2 * k + 1, Soul(name, id, e0 + 2 * k))];
        BindOne(id, name, server);
      }
      assert joined[..|joined|] == joined;
    }

    /** One join: a NetId, a creature and its soul, and the spawn broadcast. */
    method BindOne(id: ClientId, name: string, server: Network.Server)
      requires Valid() && server.Valid()
      modifies this, server
      ensures Valid() && server.Valid()
      ensures server.nextNetId == old(server.nextNetId) + 1 && nextEntity == old(nextEntity) + 2
      ensures souls == old(souls) + [(old(nextEntity) + 1, Soul(name, id, old(nextEntity)))]
      ensures creatures == old(creatures)[old(nextEntity) := Creature(old(server.nextNetId), id, name)]
      ensures inputs == old(inputs)[old(nextEntity) := ZERO]
      ensures broadcasts == old(broadcasts) + [EntitySpawned(old(server.nextNetId), 0, SPAWN_POS, ZERO, Some(id), Some(name))]
    {
      var netId := server.NextNetId();
      var creature := nextEntity;
      var soulEntity := nextEntity + 1;
      nextEntity := nextEntity + 2;
      creatures := creatures[creature := Creature(netId, id, name)];
      inputs := inputs[creature := ZERO];
      souls := souls + [(soulEntity, Soul(name, id, creature))];
      broadcasts := broadcasts + [EntitySpawned(netId, 0, SPAWN_POS, ZERO, Some(id), Some(name))];
    }

    /**
     * `unbind_soul`: each leaving client's first soul (as the souls were
     * before the batch: despawns are deferred) is despawned and its
     * creature's input zeroed; creatures stay in the world.
     */
    method UnbindSoul(left: seq<ClientId>)
      requires Valid()
      modifies this
      ensures Valid()
      ensures souls == Without(old(souls), Unbound(old(souls), left))
      ensures inputs == Stop(old(souls), old(inputs), left)
      ensures creatures == old(creatures) && nextEntity == old(nextEntity) && broadcasts == old(broadcasts)
    {
      var snapshot := souls;
      var despawned: set<Entity> := {};
      for k := 0 to |left|
        invariant souls == snapshot && creatures == old(creatures) && nextEntity == old(nextEntity)
        invariant broadcasts == old(broadcasts)
        invariant despawned == Unbound(snapshot, left[..k])
        invariant inputs == Stop(snapshot, old(inputs), left[..k])
        invariant Valid()
      {
        assert left[..k + 1][..k] == left[..k];
        var found := FindSoul(snapshot, left[k]);
        if found.Some? {
          var creature := snapshot[found.value].1.boundTo;
          if creature in inputs {
            inputs := inputs[creature := ZERO];
          }
          despawned := despawned + {snapshot[found.value].0};
        }
      }
      assert left[..|left|] == left;
      souls := Without(snapshot, despawned);
    }

    /** `route_input`: each received direction goes to the creature of the sender's first soul. */
    method RouteInput(events: seq<(ClientId, Vec3)>)
      requires Valid()
      modifies this
      ensures Valid()
      ensures inputs == Route(old(souls), old(inputs), events)
      ensures souls == old(souls) && creatures == old(creatures) && nextEntity == old(nextEntity)
      ensures broadcasts == old(broadcasts)
    {
      for k := 0 to |events|
        invariant souls == old(souls) && creatures == old(creatures) && nextEntity == old(nextEntity)
        invariant broadcasts == old(broadcasts)
        invariant inputs == Route(souls, old(inputs), events[..k])
        invariant Valid()
      {
        assert events[..k + 1][..k] == events[..k];
        var (from, direction) := events[k];
        var found := FindSoul(souls, from);
        if found.Some? {
          var creature := souls[found.value].1.boundTo;
          if creature in inputs {
            inputs := inputs[creature := direction];
          }
        }
      }
      assert events[..|events|] == events;
    }
  }

  /** The client's record of the last direction it sent. */
  class InputSendState {
    var lastSent: Vec3

    constructor ()
      ensures lastSent == ZERO
    {
      lastSent := ZERO;
    }

    /**
     * `send_input`: with a sender, a fired throttle timer, exactly one
     * controlled creature and a direction different from the last one
     * sent, the direction is recorded and then offered to the sender,
     * whatever the send's outcome.  Returns whether a send was attempted.
     */
    method SendInput(sender: Network.NetClientSender?<ClientMessage>, timerFired: bool, controlled: seq<Vec3>)
      returns (attempted: bool)
      modifies this, sender
      ensures attempted <==> sender != null && timerFired && |controlled| == 1 && controlled[0] != old(lastSent)
      ensures attempted ==> (lastSent == controlled[0]
                             && sender.tx == Network.AfterTrySend(old(sender.tx), Input(controlled[0])))
      ensures !attempted ==> lastSent == old(lastSent) && (sender != null ==> sender.tx == old(sender.tx))
    {
      if sender == null {
        return false;
      }
      if !timerFired {
        return false;
      }
      if |controlled| != 1 {
        return false;
      }
      var direction := controlled[0];
      if direction == lastSent {
        return false;
      }
      lastSent := direction;
      var _ := sender.Send(Input(direction));
      return true;
    }
  }
}
