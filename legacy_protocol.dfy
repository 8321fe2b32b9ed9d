/**
 * Vocabulary shared by the older replication systems: the game's two
 * application states, the main-menu event, the server and client event
 * enums (generic in the message type each protocol version carries),
 * the replicated entity state, and the outbound helpers every server
 * system uses.
 */
module LegacyProtocol {
  import opened Wrappers
  import opened World
  import Network

  datatype AppState = MainMenu | InGame

  /** The only main-menu event the networking systems write: back to the title screen. */
  datatype MenuEvent = Title

  /** One replicated entity's state as carried by a state update. */
  datatype EntityState = EntityState(netId: Network.NetId, position: Vec3, velocity: Vec3)

  /** The (network id, position) pairs a state update writes, in the update's order. */
  function UpdatesOf(states: seq<EntityState>): (r: seq<(nat, Vec3)>)
    ensures |r| == |states|
    ensures forall i :: 0 <= i < |states| ==> r[i] == (states[i].netId, states[i].position)
  {
    if |states| == 0 then []
    else UpdatesOf(states[..|states| - 1]) + [(states[|states| - 1].netId, states[|states| - 1].position)]
  }

  /** Events from the server task, carrying client messages of type `C`. */
  datatype ServerEvent<C> =
    | HostingStarted(port: nat)
    | HostingStopped
    | ServerError(msg: string)
    | ClientConnected(id: Network.ClientId, addr: string)
    | ClientDisconnected(id: Network.ClientId)
    | ClientMessageReceived(from: Network.ClientId, message: C)

  /** Events from the client task, carrying server messages of type `S`. */
  datatype ClientEvent<S> =
    | Connected
    | Disconnected(reason: string)
    | ClientError(msg: string)
    | ServerMessageReceived(message: S)

  /** The commands a sender resource has queued so far; nothing when the resource is absent. */
  function SentOf<M>(s: Network.NetServerSender?<M>): seq<Network.ServerCommand<M>>
    reads s
  {
    if s == null then [] else s.sent
  }

  /** What an open command channel holds after `cmds` are sent; a closed one drops them. */
  function Enqueue<M>(open: bool, sent: seq<Network.ServerCommand<M>>, cmds: seq<Network.ServerCommand<M>>)
    : (r: seq<Network.ServerCommand<M>>)
    ensures open ==> |r| == |sent| + |cmds| && r[..|sent|] == sent && r[|sent|..] == cmds
    ensures !open ==> r == sent
  {
    if open then sent + cmds else sent
  }

  lemma EnqueueAppend<M>(open: bool, sent: seq<Network.ServerCommand<M>>, a: seq<Network.ServerCommand<M>>,
                         b: seq<Network.ServerCommand<M>>)
    ensures Enqueue(open, Enqueue(open, sent, a), b) == Enqueue(open, sent, a + b)
  {
    if open {
      assert sent + a + b == sent + (a + b);
    }
  }

  /**
   * The state-broadcast rule: with a sender present and the throttle
   * timer fired, the collected states go out in one broadcast, and an
   * empty collection sends nothing.
   */
  method BroadcastState<S, M>(sender: Network.NetServerSender?<M>, timerFired: bool, states: seq<S>,
                               update: seq<S> -> M)
    modifies sender
    ensures sender != null ==> sender.open == old(sender.open)
    ensures SentOf(sender) ==
      if sender != null && timerFired && |states| > 0
      then Enqueue(sender.open, old(SentOf(sender)), [Network.ServerCommand.Broadcast(update(states))])
      else old(SentOf(sender))
  {
    if sender == null {
      return;
    }
    if !timerFired {
      return;
    }
    if |states| > 0 {
      sender.Broadcast(update(states));
    }
  }
}
