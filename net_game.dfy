/**
 * The peer-based networking of the older game.  A listen server spawns a
 * player entity per connecting peer, introduces the new peer to the
 * peers that already existed and those peers to it, and announces
 * departures; a client keeps a replica per peer and marks its own.
 */
module NetGame {
  import opened Wrappers
  import opened World
  import Network
  import opened Replication
  import opened LegacyProtocol

  type PeerId = nat

  /** What this instance is in a session; `None` until a session starts. */
  datatype NetworkRole = None | ListenServer | Client

  /** The position at which a connecting peer's entity is spawned. */
  const REMOTE_SPAWN_POS: Vec3 := Vec3(8.0, 0.86, 5.0)

  datatype PeerState = PeerState(id: PeerId, position: Vec3, velocity: Vec3)

  datatype HostMessage =
    | Welcome(peerId: PeerId)
    | PeerJoined(id: PeerId, position: Vec3)
    | PeerLeft(id: PeerId)
    | StateUpdate(peers: seq<PeerState>)

  datatype PeerMessage = Input(direction: Vec3)

  datatype NetEvent =
    | PeerConnected(id: PeerId)
    | PeerDisconnected(id: PeerId)
    | PeerMessageReceived(from: PeerId, message: PeerMessage)
    | HostMessageReceived(host: HostMessage)

  type Command = Network.ServerCommand<HostMessage>

  // ---------------------------------------------------------------------
  // Roles and system scheduling
  // ---------------------------------------------------------------------

  /** The peer-handling and state-broadcast systems run in game on a listen server only. */
  predicate RunsServerSystems(role: NetworkRole, state: AppState) {
    state == InGame && role == NetworkRole.ListenServer
  }

  /** The input-sending and host-message systems run in game on a client only. */
  predicate RunsClientSystems(role: NetworkRole, state: AppState) {
    state == InGame && role == NetworkRole.Client
  }

  /** The initial role: neither the server-side nor the client-side systems run under it. */
  function DefaultRole(): (r: NetworkRole)
    ensures forall st :: !RunsServerSystems(r, st) && !RunsClientSystems(r, st)
  {
    NetworkRole.None
  }

  // ---------------------------------------------------------------------
  // Host player tagging
  // ---------------------------------------------------------------------

  /**
   * One run of the host-player check against the peer entities `rows`:
   * the new warning flag, whether a warning is logged, and the entity
   * that receives `PlayerControlled`, if any.
   */
  function HostStep(warned: bool, role: NetworkRole, localPeer: Option<PeerId>, rows: seq<Replica>)
    : (bool, bool, Option<Entity>)
  {
    if role != NetworkRole.ListenServer || localPeer.None? then (warned, false, Option.None)
    else match FirstWithKey(rows, localPeer.value)
      case Some(i) => (false, false, if rows[i].tags.playerControlled then Option.None else Some(rows[i].entity))
      case None => (true, !warned, Option.None)
  }

  /** Repeated runs over the successive frames' peer entities: the final flag and the warnings logged. */
  function HostRuns(warned: bool, role: NetworkRole, localPeer: Option<PeerId>, frames: seq<seq<Replica>>): (bool, nat) {
    if |frames| == 0 then (warned, 0)
    else
      var (w, n) := HostRuns(warned, role, localPeer, frames[..|frames| - 1]);
      var (w', warn, _) := HostStep(w, role, localPeer, frames[|frames| - 1]);
      (w', n + if warn then 1 else 0)
  }

  /**
   * While the local peer's entity stays missing the warning is logged at
   * most once, and not at all if it was already logged.
   */
  lemma {:induction false} WarnsAtMostOnce(warned: bool, localPeer: PeerId, frames: seq<seq<Replica>>)
    requires forall f :: 0 <= f < |frames| ==> !Known(frames[f], localPeer)
    ensures var (w, n) := HostRuns(warned, NetworkRole.ListenServer, Some(localPeer), frames);
      n <= 1 && (warned ==> n == 0) && (|frames| > 0 ==> w)
  {
    if |frames| > 0 {
      var pre := frames[..|frames| - 1];
      assert forall f :: 0 <= f < |pre| ==> pre[f] == frames[f];
      WarnsAtMostOnce(warned, localPeer, pre);
      if |pre| > 0 {
        assert HostRuns(warned, NetworkRole.ListenServer, Some(localPeer), pre).0;
      }
    }
  }

  /** The `HostPlayerWarned` resource. */
  class HostPlayerWarned {
    var warned: bool

    constructor ()
      ensures !warned
    {
      warned := false;
    }

    /** `spawn_host_player`: tag the local peer's entity, or warn once that it is missing. */
    method SpawnHostPlayer(role: NetworkRole, localPeer: Option<PeerId>, rows: seq<Replica>)
      returns (warn: bool, tag: Option<Entity>)
      modifies this
      ensures (warned, warn, tag) == HostStep(old(warned), role, localPeer, rows)
    {
      warn, tag := false, Option.None;
      if role != NetworkRole.ListenServer {
        return;
      }
      if localPeer.None? {
        return;
      }
      for i := 0 to |rows|
        invariant forall j :: 0 <= j < i ==> rows[j].key != localPeer.value
      {
        if rows[i].key == localPeer.value {
          if !rows[i].tags.playerControlled {
            tag := Some(rows[i].entity);
          }
          warned := false;
          return;
        }
      }
      if !warned {
        warn := true;
        warned := true;
      }
    }
  }

  // ---------------------------------------------------------------------
  // Peer connections on the listen server
  // ---------------------------------------------------------------------

  /** The pre-existing peers introduced to the new peer `id`, at their current positions. */
  function IntroduceToNew(id: PeerId, peers: seq<Replica>): (r: seq<Command>)
    ensures |r| == |peers|
    ensures forall i :: 0 <= i < |peers| ==> r[i] == Network.SendTo(id, PeerJoined(peers[i].key, peers[i].position))
  {
    if |peers| == 0 then []
    else
      var p := peers[|peers| - 1];
      IntroduceToNew(id, peers[..|peers| - 1]) + [Network.SendTo(id, PeerJoined(p.key, p.position))]
  }

  /** The new peer `id` introduced to each pre-existing peer. */
  function IntroduceToExisting(id: PeerId, peers: seq<Replica>): (r: seq<Command>)
    ensures |r| == |peers|
    ensures forall i :: 0 <= i < |peers| ==> r[i] == Network.SendTo(peers[i].key, PeerJoined(id, REMOTE_SPAWN_POS))
  {
    if |peers| == 0 then []
    else
      var p := peers[|peers| - 1];
      IntroduceToExisting(id, peers[..|peers| - 1]) + [Network.SendTo(p.key, PeerJoined(id, REMOTE_SPAWN_POS))]
  }

  /** What a connection of peer `id` sends, given the peers visible to the system. */
  function PeerConnectCommands(id: PeerId, peers: seq<Replica>): seq<Command> {
    [Network.SendTo(id, Welcome(id)), Network.SendTo(id, PeerJoined(id, REMOTE_SPAWN_POS))]
    + IntroduceToNew(id, peers) + IntroduceToExisting(id, peers)
  }

  /** The host's peer table and queued commands after a batch of connection events. */
  function ConnectPeers(t: Table, sent: seq<Command>, open: bool, evs: seq<NetEvent>): (Table, seq<Command>) {
    if |evs| == 0 then (t, sent)
    else
      var (t', sent') := ConnectPeers(t, sent, open, evs[..|evs| - 1]);
      match evs[|evs| - 1]
      case PeerConnected(id) =>
        (QueueSpawn(t', id, REMOTE_SPAWN_POS, UNCONTROLLED), Enqueue(open, sent', PeerConnectCommands(id, t'.rows)))
      case _ => (t', sent')
  }

  /**
   * Every introduction (a PeerJoined about one peer sent to another)
   * involves a peer visible in `rows`.
   */
  predicate IntroductionsInvolve(cmds: seq<Command>, rows: seq<Replica>) {
    forall i :: (0 <= i < |cmds| && cmds[i].SendTo? && cmds[i].message.PeerJoined?
                 && cmds[i].client != cmds[i].message.id)
      ==> Known(rows, cmds[i].client) || Known(rows, cmds[i].message.id)
  }

  lemma ConnectIntroducesKnown(id: PeerId, rows: seq<Replica>)
    ensures IntroductionsInvolve(PeerConnectCommands(id, rows), rows)
  {
    var c := PeerConnectCommands(id, rows);
    var a, b := IntroduceToNew(id, rows), IntroduceToExisting(id, rows);
    forall i | 2 <= i < |c|
      ensures Known(rows, c[i].client) || Known(rows, c[i].message.id)
    {
      if i < 2 + |rows| {
        assert c[i] == a[i - 2];
        assert rows[i - 2].key == c[i].message.id;
      } else {
        assert c[i] == b[i - 2 - |rows|];
        assert rows[i - 2 - |rows|].key == c[i].client;
      }
    }
  }

  /**
   * Connections leave the visible peers alone (spawns are deferred), and
   * every introduction the batch sends involves a peer that existed
   * before the system ran.  Peers connecting in the same batch are
   * therefore never introduced to each other.
   */
  lemma {:induction false} BatchIntroducesOnlyExisting(t: Table, sent: seq<Command>, open: bool, evs: seq<NetEvent>)
    ensures var (t', sent') := ConnectPeers(t, sent, open, evs);
      t'.rows == t.rows && |sent'| >= |sent| && sent'[..|sent|] == sent
      && IntroductionsInvolve(sent'[|sent|..], t.rows)
  {
    if |evs| > 0 {
      BatchIntroducesOnlyExisting(t, sent, open, evs[..|evs| - 1]);
      var (t1, s1) := ConnectPeers(t, sent, open, evs[..|evs| - 1]);
      var (t2, s2) := ConnectPeers(t, sent, open, evs);
      if evs[|evs| - 1].PeerConnected? && open {
        var c := PeerConnectCommands(evs[|evs| - 1].id, t.rows);
        ConnectIntroducesKnown(evs[|evs| - 1].id, t.rows);
        assert s2 == s1 + c;
        assert s2[|sent|..] == s1[|sent|..] + c;
        forall i | 0 <= i < |s2[|sent|..]|
          && s2[|sent|..][i].SendTo? && s2[|sent|..][i].message.PeerJoined?
          && s2[|sent|..][i].client != s2[|sent|..][i].message.id
          ensures Known(t.rows, s2[|sent|..][i].client) || Known(t.rows, s2[|sent|..][i].message.id)
        {
          if i >= |s1[|sent|..]| {
            assert s2[|sent|..][i] == c[i - |s1[|sent|..]|];
          } else {
            assert s2[|sent|..][i] == s1[|sent|..][i];
          }
        }
      }
    }
  }

  /** Two peers that connect in one batch and were not visible before are never introduced to each other. */
  lemma SameBatchPeersNotIntroduced(t: Table, sent: seq<Command>, open: bool, evs: seq<NetEvent>,
                                    a: PeerId, b: PeerId, pos: Vec3)
    requires a != b && !Known(t.rows, a) && !Known(t.rows, b)
    ensures |ConnectPeers(t, sent, open, evs).1| >= |sent|
    ensures Network.SendTo(a, PeerJoined(b, pos)) !in ConnectPeers(t, sent, open, evs).1[|sent|..]
  {
    BatchIntroducesOnlyExisting(t, sent, open, evs);
  }

  /** Introduces every peer of `peers` to the new peer `id`, in query order. */
  method SendIntroductionsToNew(id: PeerId, peers: seq<Replica>, sender: Network.NetServerSender<HostMessage>)
    modifies sender
    ensures sender.open == old(sender.open)
    ensures sender.sent == Enqueue(sender.open, old(sender.sent), IntroduceToNew(id, peers))
  {
    for i := 0 to |peers|
      invariant sender.open == old(sender.open)
      invariant sender.open ==> sender.sent == old(sender.sent) + IntroduceToNew(id, peers[..i])
      invariant !sender.open ==> sender.sent == old(sender.sent)
    {
      assert peers[..i + 1][..i] == peers[..i];
      sender.SendTo(id, PeerJoined(peers[i].key, peers[i].position));
    }
    assert peers[..|peers|] == peers;
  }

  /** Introduces the new peer `id` to every peer of `peers`. */
  method SendIntroductionsToExisting(id: PeerId, peers: seq<Replica>, sender: Network.NetServerSender<HostMessage>)
    modifies sender
    ensures sender.open == old(sender.open)
    ensures sender.sent == Enqueue(sender.open, old(sender.sent), IntroduceToExisting(id, peers))
  {
    for i := 0 to |peers|
      invariant sender.open == old(sender.open)
      invariant sender.open ==> sender.sent == old(sender.sent) + IntroduceToExisting(id, peers[..i])
      invariant !sender.open ==> sender.sent == old(sender.sent)
    {
      assert peers[..i + 1][..i] == peers[..i];
      sender.SendTo(peers[i].key, PeerJoined(id, REMOTE_SPAWN_POS));
    }
    assert peers[..|peers|] == peers;
  }

  /** One connection: spawn its entity, then the welcome and introductions, in order. */
  method ConnectPeer(id: PeerId, sender: Network.NetServerSender<HostMessage>, world: ReplicaWorld)
    modifies sender, world
    ensures sender.open == old(sender.open)
    ensures world.State() == QueueSpawn(old(world.State()), id, REMOTE_SPAWN_POS, UNCONTROLLED)
    ensures sender.sent == Enqueue(sender.open, old(sender.sent), PeerConnectCommands(id, old(world.rows)))
  {
    var peers := world.rows;
    world.Spawn(id, REMOTE_SPAWN_POS, UNCONTROLLED);
    ghost var s0 := sender.sent;
    ghost var greet := [Network.SendTo(id, Welcome(id)), Network.SendTo(id, PeerJoined(id, REMOTE_SPAWN_POS))];
    sender.SendTo(id, Welcome(id));
    sender.SendTo(id, PeerJoined(id, REMOTE_SPAWN_POS));
    assert sender.sent == Enqueue(sender.open, s0, greet);
    SendIntroductionsToNew(id, peers, sender);
    EnqueueAppend(sender.open, s0, greet, IntroduceToNew(id, peers));
    SendIntroductionsToExisting(id, peers, sender);
    EnqueueAppend(sender.open, s0, greet + IntroduceToNew(id, peers), IntroduceToExisting(id, peers));
  }

  /** `handle_peer_connected`: nothing happens without a sender. */
  method HandlePeerConnected(events: seq<NetEvent>, sender: Network.NetServerSender?<HostMessage>, world: ReplicaWorld)
    modifies sender, world
    ensures sender == null ==> world.State() == old(world.State())
    ensures sender != null ==> sender.open == old(sender.open)
    ensures sender != null ==>
      (world.State(), sender.sent) == ConnectPeers(old(world.State()), old(sender.sent), sender.open, events)
  {
    if sender == null {
      return;
    }
    for k := 0 to |events|
      invariant sender.open == old(sender.open)
      invariant (world.State(), sender.sent) == ConnectPeers(old(world.State()), old(sender.sent), sender.open, events[..k])
    {
      assert events[..k + 1][..k] == events[..k];
      if events[k].PeerConnected? {
        ConnectPeer(events[k].id, sender, world);
      }
    }
    assert events[..|events|] == events;
  }

  // ---------------------------------------------------------------------
  // Peer departures on the listen server
  // ---------------------------------------------------------------------

  function DisconnectPeers(t: Table, sent: seq<Command>, open: bool, evs: seq<NetEvent>): (Table, seq<Command>) {
    if |evs| == 0 then (t, sent)
    else
      var (t', sent') := DisconnectPeers(t, sent, open, evs[..|evs| - 1]);
      match evs[|evs| - 1]
      case PeerDisconnected(id) => (QueueDespawnFirst(t', id), Enqueue(open, sent', [Network.Broadcast(PeerLeft(id))]))
      case _ => (t', sent')
  }

  /** One `PeerLeft` broadcast per departure, in order. */
  function LeftBroadcasts(evs: seq<NetEvent>): seq<Command> {
    if |evs| == 0 then []
    else if evs[0].PeerDisconnected? then [Network.Broadcast(PeerLeft(evs[0].id))] + LeftBroadcasts(evs[1..])
    else LeftBroadcasts(evs[1..])
  }

  lemma {:induction false} LeftBroadcastsAppend(a: seq<NetEvent>, b: seq<NetEvent>)
    ensures LeftBroadcasts(a + b) == LeftBroadcasts(a) + LeftBroadcasts(b)
  {
    if |a| > 0 {
      assert (a + b)[1..] == a[1..] + b;
      LeftBroadcastsAppend(a[1..], b);
    } else {
      assert a + b == b;
    }
  }

  /**
   * Every departure is broadcast, whether or not an entity was found for
   * it, and the only entities queued for despawn are visible peers'.
   */
  lemma {:induction false} EveryDepartureBroadcast(t: Table, sent: seq<Command>, open: bool, evs: seq<NetEvent>)
    ensures var (t', sent') := DisconnectPeers(t, sent, open, evs);
      sent' == Enqueue(open, sent, LeftBroadcasts(evs))
      && t'.rows == t.rows && t'.spawns == t.spawns
      && forall e :: e in t'.despawns ==> e in t.despawns || exists i :: 0 <= i < |t.rows| && t.rows[i].entity == e
  {
    if |evs| > 0 {
      var pre := evs[..|evs| - 1];
      var last := evs[|evs| - 1];
      EveryDepartureBroadcast(t, sent, open, pre);
      assert evs == pre + [last];
      LeftBroadcastsAppend(pre, [last]);
      assert [last][1..] == [];
      if last.PeerDisconnected? {
        EnqueueAppend(open, sent, LeftBroadcasts(pre), [Network.Broadcast(PeerLeft(last.id))]);
      }
    }
  }

  /** `handle_peer_disconnected`: despawn the first entity of the peer, and broadcast its departure always. */
  method HandlePeerDisconnected(events: seq<NetEvent>, sender: Network.NetServerSender?<HostMessage>,
                                world: ReplicaWorld)
    modifies sender, world
    ensures sender == null ==> world.State() == old(world.State())
    ensures sender != null ==> sender.open == old(sender.open)
    ensures sender != null ==>
      (world.State(), sender.sent) == DisconnectPeers(old(world.State()), old(sender.sent), sender.open, events)
  {
    if sender == null {
      return;
    }
    for k := 0 to |events|
      invariant sender.open == old(sender.open)
      invariant (world.State(), sender.sent) == DisconnectPeers(old(world.State()), old(sender.sent), sender.open, events[..k])
    {
      assert events[..k + 1][..k] == events[..k];
      if events[k].PeerDisconnected? {
        world.DespawnFirst(events[k].id);
        sender.Broadcast(PeerLeft(events[k].id));
      }
    }
    assert events[..|events|] == events;
  }

  // ---------------------------------------------------------------------
  // Host messages on a client
  // ---------------------------------------------------------------------

  /** The (peer id, position) pairs of a state update. */
  function PeerUpdates(peers: seq<PeerState>): (r: seq<(nat, Vec3)>)
    ensures |r| == |peers|
    ensures forall i :: 0 <= i < |peers| ==> r[i] == (peers[i].id, peers[i].position)
  {
    if |peers| == 0 then []
    else PeerUpdates(peers[..|peers| - 1]) + [(peers[|peers| - 1].id, peers[|peers| - 1].position)]
  }

  /**
   * The client's view while handling a batch: the local id as the loop
   * currently sees it, the `LocalPeerId` resource last inserted, and the
   * replica table.
   */
  datatype HostView = HostView(localId: Option<PeerId>, inserted: Option<PeerId>, table: Table)

  function OnHostEvent(s: HostView, ev: NetEvent): HostView {
    match ev
    case HostMessageReceived(m) =>
      (match m
       case Welcome(p) => s.(localId := Some(p), inserted := Some(p))
       case PeerJoined(id, position) =>
         if Known(s.table.rows, id) then s
         else s.(table := QueueSpawn(s.table, id, position, Tags(Some(id) == s.localId, Option.None)))
       case PeerLeft(id) => s.(table := QueueDespawnFirst(s.table, id))
       case StateUpdate(peers) => s.(table := MoveAll(s.table, PeerUpdates(peers))))
    case _ => s
  }

  function HostEventsAll(s: HostView, evs: seq<NetEvent>): HostView {
    if |evs| == 0 then s else OnHostEvent(HostEventsAll(s, evs[..|evs| - 1]), evs[|evs| - 1])
  }

  /** A welcome takes effect at once: a join for the same id later in the batch is this client's own player. */
  lemma WelcomeSeenInSameBatch(s: HostView, p: PeerId, pos: Vec3)
    requires !Known(s.table.rows, p)
    ensures HostEventsAll(s, [HostMessageReceived(Welcome(p)), HostMessageReceived(PeerJoined(p, pos))]).table.spawns
            == s.table.spawns + [Replica(s.table.nextEntity, p, pos, Tags(true, Option.None))]
  {
    var evs := [HostMessageReceived(Welcome(p)), HostMessageReceived(PeerJoined(p, pos))];
    assert evs[..1] == [evs[0]];
    assert evs[..1][..0] == [];
    assert HostEventsAll(s, evs[..1][..0]) == s;
    assert HostEventsAll(s, evs[..1]) == s.(localId := Some(p), inserted := Some(p));
  }

  /**
   * With the local id known and no welcome in the batch, every replica the
   * batch queues is marked as this client's player exactly when it is the
   * local peer's, and the visible replicas keep their identities.
   */
  lemma {:induction false} OnlyOwnPlayerControlled(s: HostView, evs: seq<NetEvent>)
    requires forall i :: 0 <= i < |evs| ==> !(evs[i].HostMessageReceived? && evs[i].host.Welcome?)
    ensures var r := HostEventsAll(s, evs);
      r.localId == s.localId && r.inserted == s.inserted && SameRows(s.table.rows, r.table.rows)
      && |r.table.spawns| >= |s.table.spawns| && r.table.spawns[..|s.table.spawns|] == s.table.spawns
      && forall i :: |s.table.spawns| <= i < |r.table.spawns| ==>
           (r.table.spawns[i].tags.playerControlled <==> Some(r.table.spawns[i].key) == s.localId)
  {
    if |evs| > 0 {
      var pre := evs[..|evs| - 1];
      assert forall i :: 0 <= i < |pre| ==> pre[i] == evs[i];
      OnlyOwnPlayerControlled(s, pre);
      var ev := evs[|evs| - 1];
      if ev.HostMessageReceived? && ev.host.StateUpdate? {
        MoveAllKeepsRows(HostEventsAll(s, pre).table, PeerUpdates(ev.host.peers));
      }
    }
  }

  /**
   * The presence check reads only the visible replicas, so two joins for
   * one unknown peer in a batch queue two replicas of it.
   */
  lemma JoinTwiceSpawnsTwice(s: HostView, p: PeerId, x: Vec3, y: Vec3)
    requires !Known(s.table.rows, p)
    ensures var r := HostEventsAll(s, [HostMessageReceived(PeerJoined(p, x)), HostMessageReceived(PeerJoined(p, y))]);
      |r.table.spawns| == |s.table.spawns| + 2
      && r.table.spawns[|s.table.spawns|].key == p && r.table.spawns[|s.table.spawns| + 1].key == p
  {
    var evs := [HostMessageReceived(PeerJoined(p, x)), HostMessageReceived(PeerJoined(p, y))];
    assert evs[..1] == [evs[0]];
    assert evs[..1][..0] == [];
    assert HostEventsAll(s, evs[..1][..0]) == s;
  }

  /** Handling a batch in two parts is handling it in one. */
  lemma {:induction false} HostEventsAppend(s: HostView, a: seq<NetEvent>, b: seq<NetEvent>)
    ensures HostEventsAll(s, a + b) == HostEventsAll(HostEventsAll(s, a), b)
    decreases |b|
  {
    if |b| == 0 {
      assert a + b == a;
    } else {
      assert (a + b)[..|a + b| - 1] == a + b[..|b| - 1];
      HostEventsAppend(s, a, b[..|b| - 1]);
    }
  }

  /**
   * A welcome anywhere in a batch governs everything after it: with no
   * further welcome, the local id and the inserted resource are its peer,
   * and every replica queued after it is this client's player exactly when
   * its key is that peer.
   */
  lemma WelcomeGovernsRestOfBatch(s: HostView, a: seq<NetEvent>, p: PeerId, b: seq<NetEvent>)
    requires forall i :: 0 <= i < |b| ==> !(b[i].HostMessageReceived? && b[i].host.Welcome?)
    ensures var mid := HostEventsAll(s, a + [HostMessageReceived(Welcome(p))]);
      var r := HostEventsAll(s, a + [HostMessageReceived(Welcome(p))] + b);
      r.localId == Some(p) && r.inserted == Some(p)
      && |r.table.spawns| >= |mid.table.spawns| && r.table.spawns[..|mid.table.spawns|] == mid.table.spawns
      && forall i :: |mid.table.spawns| <= i < |r.table.spawns| ==>
           (r.table.spawns[i].tags.playerControlled <==> r.table.spawns[i].key == p)
  {
    var w := [HostMessageReceived(Welcome(p))];
    assert (a + w)[..|a + w| - 1] == a;
    var mid := HostEventsAll(s, a + w);
    assert mid.localId == Some(p) && mid.inserted == Some(p);
    HostEventsAppend(s, a + w, b);
    OnlyOwnPlayerControlled(mid, b);
  }

  /** `receive_host_messages`: the local id starts from the resource and follows welcomes at once. */
  method ReceiveHostMessages(events: seq<NetEvent>, localPeer: Option<PeerId>, world: ReplicaWorld)
    returns (inserted: Option<PeerId>)
    modifies world
    ensures var r := HostEventsAll(HostView(localPeer, Option.None, old(world.State())), events);
      inserted == r.inserted && world.State() == r.table
  {
    var localId := localPeer;
    inserted := Option.None;
    for k := 0 to |events|
      invariant HostView(localId, inserted, world.State())
        == HostEventsAll(HostView(localPeer, Option.None, old(world.State())), events[..k])
    {
      assert events[..k + 1][..k] == events[..k];
      if events[k].HostMessageReceived? {
        match events[k].host
        case Welcome(p) =>
          inserted := Some(p);
          localId := Some(p);
        case PeerJoined(id, position) =>
          var present := world.Exists(id);
          if !present {
            world.Spawn(id, position, Tags(Some(id) == localId, Option.None));
          }
        case PeerLeft(id) =>
          world.DespawnFirst(id);
        case StateUpdate(peers) =>
          world.MoveListed(PeerUpdates(peers));
      }
    }
    assert events[..|events|] == events;
  }
}
