/**
 * The network layer's game-thread side: session resources, the bounded
 * client outbound channel, the registry of tagged module streams with its
 * per-tag receive buffers and shared sender slots, and the two per-frame
 * drains that move events from the async tasks into the game.
 */
module Network {
  import opened Wrappers

  /** Capacity of the client's outbound message channel. */
  const CLIENT_BUFFER_SIZE: nat := 100
  /** Capacity of each stream command channel. */
  const STREAM_CMD_BUFFER_SIZE: nat := 512
  /** At most this many inbound events are taken from a channel per frame. */
  const MAX_NET_EVENTS_PER_FRAME: nat := 100

  newtype byte = x: int | 0 <= x < 256
  type Bytes = seq<byte>
  /** A stream routing tag; tag 0 is the control stream. */
  type Tag = x: int | 0 <= x < 256
  type ClientId = nat
  type NetId = nat

  function Min(a: nat, b: nat): nat {
    if a <= b then a else b
  }

  // ---------------------------------------------------------------------
  // Session resources
  // ---------------------------------------------------------------------

  /** Server session state: hands out network ids, starting at 1. */
  class Server {
    var nextNetId: nat
    /** Every id handed out so far. */
    ghost var issued: set<NetId>

    ghost predicate Valid()
      reads this
    {
      nextNetId >= 1 && forall id :: id in issued ==> 1 <= id < nextNetId
    }

    constructor ()
      ensures Valid() && nextNetId == 1 && issued == {}
    {
      nextNetId := 1;
      issued := {};
    }

    /** Returns the current counter value and advances it: never the same id twice. */
    method NextNetId() returns (id: NetId)
      requires Valid()
      modifies this
      ensures Valid()
      ensures id == old(nextNetId) && nextNetId == old(nextNetId) + 1
      ensures id !in old(issued) && issued == old(issued) + {id}
    {
      id := nextNetId;
      nextNetId := nextNetId + 1;
      issued := issued + {id};
    }
  }

  /** Client session state: the id the server assigned, once known. */
  class Client {
    var localId: Option<ClientId>

    constructor ()
      ensures localId == None
    {
      localId := None;
    }
  }

  // ---------------------------------------------------------------------
  // Bounded channels
  // ---------------------------------------------------------------------

  /**
   * A bounded mpsc channel as seen from the sending side: the queued
   * items, the capacity, and whether the receiver still exists.
   */
  datatype Channel<T> = Channel(items: seq<T>, capacity: nat, open: bool)

  function NewChannel<T>(capacity: nat): (ch: Channel<T>)
    ensures ch.items == [] && ch.capacity == capacity && ch.open
  {
    Channel([], capacity, true)
  }

  datatype TrySend = Sent | Full | ReceiverGone

  /** What `try_send` reports: a dropped receiver first, then a full queue. */
  function TrySendOutcome<T>(ch: Channel<T>): (r: TrySend)
    ensures r == Sent <==> ch.open && |ch.items| < ch.capacity
    ensures r == ReceiverGone <==> !ch.open
  {
    if !ch.open then ReceiverGone
    else if |ch.items| >= ch.capacity then Full
    else Sent
  }

  /** The channel after `try_send(v)`: `v` is queued only when the send succeeds. */
  function AfterTrySend<T>(ch: Channel<T>, v: T): (r: Channel<T>)
  {
    if TrySendOutcome(ch) == Sent then ch.(items := ch.items + [v]) else ch
  }

  /** A send never pushes a channel past its capacity, and adds at most the one item. */
  lemma TrySendBounded<T>(ch: Channel<T>, v: T)
    requires |ch.items| <= ch.capacity
    ensures |AfterTrySend(ch, v).items| <= ch.capacity
    ensures AfterTrySend(ch, v).items == ch.items
         || AfterTrySend(ch, v).items == ch.items + [v]
    ensures AfterTrySend(ch, v).capacity == ch.capacity
  {
  }

  /** Sent items come out in the order they went in. */
  lemma TrySendFifo<T>(ch: Channel<T>, v: T)
    requires TrySendOutcome(ch) == Sent
    ensures AfterTrySend(ch, v).items[..|ch.items|] == ch.items
    ensures AfterTrySend(ch, v).items[|ch.items|] == v
  {
  }

  datatype SendError = BufferFull | Closed

  /** The client's outbound channel resource. */
  class NetClientSender<M> {
    var tx: Channel<M>

    /** Wraps a channel that was just created with the given capacity. */
    constructor (capacity: nat)
      ensures tx == NewChannel(capacity)
    {
      tx := NewChannel(capacity);
    }

    /** Queues `m` without waiting; a full or closed channel drops it and says which. */
    method Send(m: M) returns (r: Outcome<SendError>)
      modifies this
      ensures tx == AfterTrySend(old(tx), m)
      ensures r == Pass <==> TrySendOutcome(old(tx)) == Sent
      ensures r == Fail(BufferFull) <==> TrySendOutcome(old(tx)) == Full
      ensures r == Fail(Closed) <==> TrySendOutcome(old(tx)) == ReceiverGone
    {
      var outcome := TrySendOutcome(tx);
      tx := AfterTrySend(tx, m);
      match outcome
      case Sent => r := Pass;
      case Full => r := Fail(BufferFull);
      case ReceiverGone => r := Fail(Closed);
    }
  }

  /** A command to the server task. */
  datatype ServerCommand<M> = SendTo(client: ClientId, message: M) | Broadcast(message: M)

  /**
   * The server's outbound command channel resource.  The channel is
   * unbounded; a send fails only when the server task is gone, and the
   * failure is logged, never reported.
   */
  class NetServerSender<M> {
    var sent: seq<ServerCommand<M>>
    var open: bool

    constructor ()
      ensures sent == [] && open
    {
      sent := [];
      open := true;
    }

    method SendTo(client: ClientId, m: M)
      modifies this
      ensures open == old(open)
      ensures sent == if open then old(sent) + [ServerCommand.SendTo(client, m)] else old(sent)
    {
      if open {
        sent := sent + [ServerCommand.SendTo(client, m)];
      }
    }

    method Broadcast(m: M)
      modifies this
      ensures open == old(open)
      ensures sent == if open then old(sent) + [ServerCommand.Broadcast(m)] else old(sent)
    {
      if open {
        sent := sent + [ServerCommand.Broadcast(m)];
      }
    }
  }

  // ---------------------------------------------------------------------
  // Module streams
  // ---------------------------------------------------------------------

  datatype Direction = ServerToClient | ClientToServer

  datatype StreamDef = StreamDef(tag: Tag, name: string, direction: Direction)

  /** What a server-to-client stream asks the server task to write. */
  datatype StreamWriteCmd = WriteTo(client: ClientId, data: Bytes) | WriteAll(data: Bytes)

  datatype StreamSendError = Encode | SendClosed | SendBufferFull

  datatype RegisterError = ReservedTag | DuplicateTag

  /** The typed sender handed out by `Register`; its shared slots live in the registry. */
  datatype StreamSender = StreamSender(tag: Tag, direction: Direction)

  /** The typed reader handed out by `Register`; its buffer lives in the registry. */
  datatype StreamReader = StreamReader(tag: Tag, direction: Direction)

  /** Tags of the entries that run in direction `d`. */
  function TagsWith(entries: seq<StreamDef>, d: Direction): set<Tag>
  {
    set i | 0 <= i < |entries| && entries[i].direction == d :: entries[i].tag
  }

  /** Number of entries that run in direction `d`. */
  function CountDir(entries: seq<StreamDef>, d: Direction): nat
  {
    if |entries| == 0 then 0
    else CountDir(entries[..|entries| - 1], d) + (if entries[|entries| - 1].direction == d then 1 else 0)
  }

  /** Tags of the entries that run in direction `d`, in registration order. */
  function TagsInOrder(entries: seq<StreamDef>, d: Direction): seq<Tag>
  {
    if |entries| == 0 then []
    else TagsInOrder(entries[..|entries| - 1], d)
         + (if entries[|entries| - 1].direction == d then [entries[|entries| - 1].tag] else [])
  }

  predicate DistinctTags(entries: seq<StreamDef>) {
    forall i, j :: 0 <= i < j < |entries| ==> entries[i].tag != entries[j].tag
  }

  predicate NonZeroTags(entries: seq<StreamDef>) {
    forall i :: 0 <= i < |entries| ==> entries[i].tag != 0
  }

  lemma TagsWithAppend(entries: seq<StreamDef>, def: StreamDef, d: Direction)
    ensures TagsWith(entries + [def], d)
         == TagsWith(entries, d) + (if def.direction == d then {def.tag} else {})
  {
    var es := entries + [def];
    forall t | t in TagsWith(es, d)
      ensures t in TagsWith(entries, d) + (if def.direction == d then {def.tag} else {})
    {
      var i :| 0 <= i < |es| && es[i].direction == d && es[i].tag == t;
      if i < |entries| {
        assert entries[i] == es[i];
      }
    }
    forall t | t in TagsWith(entries, d)
      ensures t in TagsWith(es, d)
    {
      var i :| 0 <= i < |entries| && entries[i].direction == d && entries[i].tag == t;
      assert es[i] == entries[i];
    }
    if def.direction == d {
      assert es[|entries|] == def;
    }
  }

  /** Registered tags all differ, so each direction's count is the number of its tags. */
  lemma {:induction false} CountIsTagCount(entries: seq<StreamDef>, d: Direction)
    requires DistinctTags(entries)
    ensures CountDir(entries, d) == |TagsWith(entries, d)|
    decreases |entries|
  {
    if |entries| > 0 {
      var init, last := entries[..|entries| - 1], entries[|entries| - 1];
      assert entries == init + [last];
      CountIsTagCount(init, d);
      TagsWithAppend(init, last, d);
    }
  }

  /** A set of integers drawn from `[lo, hi)` has at most `hi - lo` members. */
  lemma {:induction false} BoundedSetSize(s: set<int>, lo: int, hi: int)
    requires forall x :: x in s ==> lo <= x < hi
    ensures |s| <= if hi <= lo then 0 else hi - lo
    decreases hi - lo
  {
    if hi <= lo {
      assert s == {};
    } else {
      BoundedSetSize(s - {hi - 1}, lo, hi - 1);
    }
  }

  /** Distinct non-zero byte tags leave room for at most 255 streams in either direction. */
  lemma CountFitsInByte(entries: seq<StreamDef>, d: Direction)
    requires DistinctTags(entries) && NonZeroTags(entries)
    ensures CountDir(entries, d) <= 255
  {
    CountIsTagCount(entries, d);
    var tags: set<int> := TagsWith(entries, d);
    forall t | t in tags
      ensures 1 <= t < 256
    {
      var i :| 0 <= i < |entries| && entries[i].direction == d && entries[i].tag == t;
    }
    BoundedSetSize(tags, 1, 256);
  }

  /** The ordered tag list holds each matching entry's tag once, so its length is the count. */
  lemma {:induction false} TagsInOrderMatchesCount(entries: seq<StreamDef>, d: Direction)
    ensures |TagsInOrder(entries, d)| == CountDir(entries, d)
    ensures forall t :: t in TagsInOrder(entries, d) <==> t in TagsWith(entries, d)
    decreases |entries|
  {
    if |entries| > 0 {
      var init, last := entries[..|entries| - 1], entries[|entries| - 1];
      assert entries == init + [last];
      TagsInOrderMatchesCount(init, d);
      TagsWithAppend(init, last, d);
    } else {
      assert TagsWith(entries, d) == {};
    }
  }

  /**
   * The registry's invariant: tags are non-zero and distinct, every
   * server-to-client stream has a buffer, and every client-to-server
   * stream has a buffer and a sender slot.
   */
  ghost predicate WellFormed(entries: seq<StreamDef>, bufTags: set<Tag>, clientBufTags: set<Tag>, slotTags: set<Tag>) {
    NonZeroTags(entries) && DistinctTags(entries)
    && bufTags == TagsWith(entries, ServerToClient)
    && clientBufTags == TagsWith(entries, ClientToServer)
    && slotTags == TagsWith(entries, ClientToServer)
  }

  /** Registering a fresh non-zero tag, with a buffer (and slot) for it, keeps the invariant. */
  lemma RegisterKeepsWellFormed(entries: seq<StreamDef>, def: StreamDef,
                                bufTags: set<Tag>, clientBufTags: set<Tag>, slotTags: set<Tag>)
    requires WellFormed(entries, bufTags, clientBufTags, slotTags)
    requires def.tag != 0 && forall i :: 0 <= i < |entries| ==> entries[i].tag != def.tag
    ensures def.direction == ServerToClient ==>
      WellFormed(entries + [def], bufTags + {def.tag}, clientBufTags, slotTags)
    ensures def.direction == ClientToServer ==>
      WellFormed(entries + [def], bufTags, clientBufTags + {def.tag}, slotTags + {def.tag})
    ensures CountDir(entries + [def], ServerToClient)
         == CountDir(entries, ServerToClient) + (if def.direction == ServerToClient then 1 else 0)
  {
    TagsWithAppend(entries, def, ServerToClient);
    TagsWithAppend(entries, def, ClientToServer);
    assert (entries + [def])[..|entries|] == entries;
  }

  /** `filter_map` with the frame decoder: undecodable frames are skipped. */
  function DecodeAll<T>(frames: seq<Bytes>, decode: Bytes -> Option<T>): seq<T>
  {
    if |frames| == 0 then []
    else DecodeAll(frames[..|frames| - 1], decode)
         + (match decode(frames[|frames| - 1]) case Some(m) => [m] case None => [])
  }

  /** Decoding commutes with concatenation: frames are decoded in arrival order. */
  lemma {:induction false} DecodeAllAppend<T>(a: seq<Bytes>, b: seq<Bytes>, decode: Bytes -> Option<T>)
    ensures DecodeAll(a + b, decode) == DecodeAll(a, decode) + DecodeAll(b, decode)
    decreases |b|
  {
    if |b| > 0 {
      var b' := b[..|b| - 1];
      assert (a + b)[..|a + b| - 1] == a + b';
      DecodeAllAppend(a, b', decode);
    } else {
      assert a + b == a;
    }
  }

  /** When every frame decodes, nothing is dropped and order is kept. */
  lemma {:induction false} DecodeAllExact<T>(frames: seq<Bytes>, decode: Bytes -> Option<T>)
    requires forall i :: 0 <= i < |frames| ==> decode(frames[i]).Some?
    ensures |DecodeAll(frames, decode)| == |frames|
    ensures forall i :: 0 <= i < |frames| ==> DecodeAll(frames, decode)[i] == decode(frames[i]).value
    decreases |frames|
  {
    if |frames| > 0 {
      DecodeAllExact(frames[..|frames| - 1], decode);
    }
  }

  /** Decoding never produces more messages than frames. */
  lemma {:induction false} DecodeAllShorter<T>(frames: seq<Bytes>, decode: Bytes -> Option<T>)
    ensures |DecodeAll(frames, decode)| <= |frames|
    decreases |frames|
  {
    if |frames| > 0 {
      DecodeAllShorter(frames[..|frames| - 1], decode);
    }
  }

  /** `drain_from_client`'s decoding: the sender's id is kept with each decoded message. */
  function DecodeAllFrom<T>(frames: seq<(ClientId, Bytes)>, decode: Bytes -> Option<T>): seq<(ClientId, T)>
  {
    if |frames| == 0 then []
    else DecodeAllFrom(frames[..|frames| - 1], decode)
         + (match decode(frames[|frames| - 1].1) case Some(m) => [(frames[|frames| - 1].0, m)] case None => [])
  }

  lemma {:induction false} DecodeAllFromExact<T>(frames: seq<(ClientId, Bytes)>, decode: Bytes -> Option<T>)
    requires forall i :: 0 <= i < |frames| ==> decode(frames[i].1).Some?
    ensures |DecodeAllFrom(frames, decode)| == |frames|
    ensures forall i :: 0 <= i < |frames| ==>
      DecodeAllFrom(frames, decode)[i] == (frames[i].0, decode(frames[i].1).value)
    decreases |frames|
  {
    if |frames| > 0 {
      DecodeAllFromExact(frames[..|frames| - 1], decode);
    }
  }

  /** Appends a frame to its tag's buffer; a frame for an unknown tag is dropped. */
  function PushFrame<F>(bufs: map<Tag, seq<F>>, tag: Tag, f: F): (r: map<Tag, seq<F>>)
    ensures r.Keys == bufs.Keys
  {
    if tag in bufs then bufs[tag := bufs[tag] + [f]] else bufs
  }

  /** Offers `v` to a shared sender slot: an empty slot means no session is running. */
  function Offer<T>(slot: Option<Channel<T>>, v: T): (r: (Outcome<StreamSendError>, Option<Channel<T>>))
    ensures slot.None? ==> r == (Fail(SendClosed), slot)
    ensures slot.Some? ==> r.1 == Some(AfterTrySend(slot.value, v))
    ensures slot.Some? ==> (r.0 == Pass <==> TrySendOutcome(slot.value) == Sent)
    ensures slot.Some? ==> (r.0 == Fail(SendBufferFull) <==> TrySendOutcome(slot.value) == Full)
    ensures slot.Some? ==> (r.0 == Fail(SendClosed) <==> TrySendOutcome(slot.value) == ReceiverGone)
  {
    match slot
    case None => (Fail(SendClosed), None)
    case Some(ch) =>
      var next := Some(AfterTrySend(ch, v));
      match TrySendOutcome(ch)
      case Sent => (Pass, next)
      case Full => (Fail(SendBufferFull), next)
      case ReceiverGone => (Fail(SendClosed), next)
  }

  /** Events from the server task. */
  datatype ServerEvent<M> =
    | HostingStarted(port: nat)
    | HostingStopped
    | ClientConnected(id: ClientId, addr: string, name: string)
    | ClientMessageReceived(from: ClientId, message: M)
    | ClientDisconnected(id: ClientId)
    | ClientStreamFrame(from: ClientId, tag: Tag, data: Bytes)
    | ServerError(reason: string)

  /** Events from the client task. */
  datatype ClientEvent<M> =
    | Connected
    | Disconnected(reason: string)
    | ServerMessageReceived(message: M)
    | StreamFrame(tag: Tag, data: Bytes)
    | StreamReady(tag: Tag)
    | ClientError(reason: string)

  // Specification of one client-side drain over the events it consumed.

  /** The events written as game messages: all but the stream-ready sentinels. */
  function ClientVisible<M>(evs: seq<ClientEvent<M>>): seq<ClientEvent<M>>
  {
    if |evs| == 0 then []
    else ClientVisible(evs[..|evs| - 1]) + (if evs[|evs| - 1].StreamReady? then [] else [evs[|evs| - 1]])
  }

  /** The tags of the stream-ready sentinels, in arrival order. */
  function ReadyTags<M>(evs: seq<ClientEvent<M>>): seq<Tag>
  {
    if |evs| == 0 then []
    else ReadyTags(evs[..|evs| - 1]) + (if evs[|evs| - 1].StreamReady? then [evs[|evs| - 1].tag] else [])
  }

  /** The stream frames of a batch, appended to their tags' buffers in order. */
  function RouteFrames<M>(bufs: map<Tag, seq<Bytes>>, evs: seq<ClientEvent<M>>): map<Tag, seq<Bytes>>
  {
    if |evs| == 0 then bufs
    else
      var before := RouteFrames(bufs, evs[..|evs| - 1]);
      var e := evs[|evs| - 1];
      if e.StreamFrame? then PushFrame(before, e.tag, e.data) else before
  }

  /** The payloads of the frames carrying `tag`, in arrival order. */
  function FramesFor<M>(evs: seq<ClientEvent<M>>, tag: Tag): seq<Bytes>
  {
    if |evs| == 0 then []
    else FramesFor(evs[..|evs| - 1], tag)
         + (if evs[|evs| - 1].StreamFrame? && evs[|evs| - 1].tag == tag then [evs[|evs| - 1].data] else [])
  }

  predicate AnyDisconnected<M>(evs: seq<ClientEvent<M>>) {
    exists i :: 0 <= i < |evs| && evs[i].Disconnected?
  }

  function ReadyEvents<M>(tags: seq<Tag>): (r: seq<ClientEvent<M>>)
    ensures |r| == |tags|
    ensures forall i :: 0 <= i < |tags| ==> r[i] == StreamReady(tags[i])
  {
    if |tags| == 0 then [] else [StreamReady(tags[0])] + ReadyEvents(tags[1..])
  }

  /** Every sender slot emptied. */
  function AllClosed<T>(slots: map<Tag, Option<T>>): (r: map<Tag, Option<T>>)
    ensures r.Keys == slots.Keys
    ensures forall t :: t in r ==> r[t].None?
  {
    map t | t in slots :: None
  }

  /** Each consumed event is either written now or deferred to the next frame: nothing is lost. */
  lemma {:induction false} ClientBatchPartition<M>(evs: seq<ClientEvent<M>>)
    ensures |ClientVisible(evs)| + |ReadyTags(evs)| == |evs|
    ensures forall i :: 0 <= i < |ClientVisible(evs)| ==> !ClientVisible(evs)[i].StreamReady?
    decreases |evs|
  {
    if |evs| > 0 {
      ClientBatchPartition(evs[..|evs| - 1]);
    }
  }

  /** Routing puts exactly the batch's frames for each registered tag behind what was buffered. */
  lemma {:induction false} RouteFramesPerTag<M>(bufs: map<Tag, seq<Bytes>>, evs: seq<ClientEvent<M>>)
    ensures RouteFrames(bufs, evs).Keys == bufs.Keys
    ensures forall t :: t in bufs ==> RouteFrames(bufs, evs)[t] == bufs[t] + FramesFor(evs, t)
    decreases |evs|
  {
    if |evs| > 0 {
      RouteFramesPerTag(bufs, evs[..|evs| - 1]);
    }
  }

  // Specification of one server-side drain.

  /** The events written as game messages: all but the client stream frames. */
  function ServerVisible<M>(evs: seq<ServerEvent<M>>): seq<ServerEvent<M>>
  {
    if |evs| == 0 then []
    else ServerVisible(evs[..|evs| - 1]) + (if evs[|evs| - 1].ClientStreamFrame? then [] else [evs[|evs| - 1]])
  }

  function RouteClientFrames<M>(bufs: map<Tag, seq<(ClientId, Bytes)>>, evs: seq<ServerEvent<M>>)
    : map<Tag, seq<(ClientId, Bytes)>>
  {
    if |evs| == 0 then bufs
    else
      var before := RouteClientFrames(bufs, evs[..|evs| - 1]);
      var e := evs[|evs| - 1];
      if e.ClientStreamFrame? then PushFrame(before, e.tag, (e.from, e.data)) else before
  }

  /** The frames carrying `tag`, with their senders, in arrival order. */
  function ClientFramesFor<M>(evs: seq<ServerEvent<M>>, tag: Tag): seq<(ClientId, Bytes)>
  {
    if |evs| == 0 then []
    else ClientFramesFor(evs[..|evs| - 1], tag)
         + (if evs[|evs| - 1].ClientStreamFrame? && evs[|evs| - 1].tag == tag
            then [(evs[|evs| - 1].from, evs[|evs| - 1].data)] else [])
  }

  predicate AnyHostingStopped<M>(evs: seq<ServerEvent<M>>) {
    exists i :: 0 <= i < |evs| && evs[i].HostingStopped?
  }

  /** The client stream frames of a batch, in arrival order. */
  function ServerFrames<M>(evs: seq<ServerEvent<M>>): seq<ServerEvent<M>>
  {
    if |evs| == 0 then []
    else ServerFrames(evs[..|evs| - 1]) + (if evs[|evs| - 1].ClientStreamFrame? then [evs[|evs| - 1]] else [])
  }

  /** A batch keeps every event except the frames, which go to the readers instead. */
  lemma {:induction false} ServerBatchPartition<M>(evs: seq<ServerEvent<M>>)
    ensures |ServerVisible(evs)| + |ServerFrames(evs)| == |evs|
    ensures forall i :: 0 <= i < |ServerVisible(evs)| ==> !ServerVisible(evs)[i].ClientStreamFrame?
    ensures forall i :: 0 <= i < |ServerFrames(evs)| ==> ServerFrames(evs)[i].ClientStreamFrame?
    ensures (forall i :: 0 <= i < |evs| ==> !evs[i].ClientStreamFrame?) ==> ServerVisible(evs) == evs
    decreases |evs|
  {
    if |evs| > 0 {
      ServerBatchPartition(evs[..|evs| - 1]);
      assert evs == evs[..|evs| - 1] + [evs[|evs| - 1]];
    }
  }

  /** The written events and the frames together are exactly the batch's events. */
  lemma {:induction false} ServerBatchSplit<M>(evs: seq<ServerEvent<M>>)
    ensures multiset(ServerVisible(evs)) + multiset(ServerFrames(evs)) == multiset(evs)
    decreases |evs|
  {
    if |evs| > 0 {
      var init, e := evs[..|evs| - 1], evs[|evs| - 1];
      ServerBatchSplit(init);
      assert evs == init + [e];
      assert multiset(evs) == multiset(init) + multiset{e};
    }
  }

  lemma {:induction false} RouteClientFramesPerTag<M>(bufs: map<Tag, seq<(ClientId, Bytes)>>, evs: seq<ServerEvent<M>>)
    ensures RouteClientFrames(bufs, evs).Keys == bufs.Keys
    ensures forall t :: t in bufs ==> RouteClientFrames(bufs, evs)[t] == bufs[t] + ClientFramesFor(evs, t)
    decreases |evs|
  {
    if |evs| > 0 {
      RouteClientFramesPerTag(bufs, evs[..|evs| - 1]);
    }
  }

  /**
   * The batches successive frames take from a queue that receives nothing
   * new: full batches of the cap and then the remainder.
   */
  function Batches<E>(queue: seq<E>): seq<seq<E>>
    decreases |queue|
  {
    if |queue| == 0 then []
    else if |queue| <= MAX_NET_EVENTS_PER_FRAME then [queue]
    else [queue[..MAX_NET_EVENTS_PER_FRAME]] + Batches(queue[MAX_NET_EVENTS_PER_FRAME..])
  }

  function Flatten<E>(ss: seq<seq<E>>): seq<E>
  {
    if |ss| == 0 then [] else ss[0] + Flatten(ss[1..])
  }

  /** Batching loses and reorders nothing, and only the last batch can fall short of the cap. */
  lemma {:induction false} BatchesCoverQueue<E>(queue: seq<E>)
    ensures Flatten(Batches(queue)) == queue
    ensures forall i :: 0 <= i < |Batches(queue)| ==> 0 < |Batches(queue)[i]| <= MAX_NET_EVENTS_PER_FRAME
    ensures forall i :: 0 <= i < |Batches(queue)| - 1 ==> |Batches(queue)[i]| == MAX_NET_EVENTS_PER_FRAME
    ensures |queue| > 0 ==> Batches(queue)[0] == queue[..Min(|queue|, MAX_NET_EVENTS_PER_FRAME)]
    decreases |queue|
  {
    if |queue| > MAX_NET_EVENTS_PER_FRAME {
      var rest := queue[MAX_NET_EVENTS_PER_FRAME..];
      BatchesCoverQueue(rest);
      assert Batches(queue)[1..] == Batches(rest);
      assert queue == queue[..MAX_NET_EVENTS_PER_FRAME] + rest;
    } else if |queue| > 0 {
      assert Flatten(Batches(queue)) == queue + Flatten([]);
    }
  }

  /** 150 queued events take two frames: 100 and then 50. */
  lemma CapOf150(queue: seq<nat>)
    requires |queue| == 150
    ensures |Batches(queue)| == 2
    ensures |Batches(queue)[0]| == 100 && |Batches(queue)[1]| == 50
  {
    assert Batches(queue[100..]) == [queue[100..]];
  }

  /**
   * The registry of module streams.  `sharedTx` is the command channel
   * slot shared by every server-to-client sender; `clientTxs` holds one
   * shared slot per client-to-server stream; the buffers are shared with
   * the readers.
   */
  class StreamRegistry {
    var entries: seq<StreamDef>
    var sharedTx: Option<Channel<(Tag, StreamWriteCmd)>>
    var streamBufs: map<Tag, seq<Bytes>>
    var clientStreamBufs: map<Tag, seq<(ClientId, Bytes)>>
    var clientTxs: map<Tag, Option<Channel<Bytes>>>
    var deferredReady: seq<Tag>

    ghost predicate Valid()
      reads this
    {
      WellFormed(entries, streamBufs.Keys, clientStreamBufs.Keys, clientTxs.Keys)
    }

    /** Whether `tag` was registered in direction `d`, as every handed-out sender and reader was. */
    ghost predicate Issued(tag: Tag, d: Direction)
      reads this
    {
      exists i :: 0 <= i < |entries| && entries[i].tag == tag && entries[i].direction == d
    }

    constructor ()
      ensures Valid()
      ensures entries == [] && sharedTx == None && streamBufs == map[]
      ensures clientStreamBufs == map[] && clientTxs == map[] && deferredReady == []
    {
      entries, sharedTx, streamBufs := [], None, map[];
      clientStreamBufs, clientTxs, deferredReady := map[], map[], [];
    }

    /** Whether a stream with `tag` is already declared. */
    static method HasTag(entries: seq<StreamDef>, tag: Tag) returns (found: bool)
      ensures found <==> exists i :: 0 <= i < |entries| && entries[i].tag == tag
    {
      var i := 0;
      while i < |entries|
        invariant 0 <= i <= |entries|
        invariant forall j :: 0 <= j < i ==> entries[j].tag != tag
      {
        if entries[i].tag == tag {
          return true;
        }
        i := i + 1;
      }
      return false;
    }

    /**
     * Declares a stream.  Tag 0 and already-registered tags are refused
     * (the source panics); otherwise the stream gets an empty buffer and,
     * when it runs client to server, an empty sender slot.
     */
    method Register(def: StreamDef) returns (r: Result<(StreamSender, StreamReader), RegisterError>)
      requires Valid()
      modifies this
      ensures Valid()
      ensures def.tag == 0 ==> r == Failure(ReservedTag) && entries == old(entries)
      ensures def.tag != 0 && (exists i :: 0 <= i < |old(entries)| && old(entries)[i].tag == def.tag) ==>
        r == Failure(DuplicateTag) && entries == old(entries)
      ensures r.Failure? ==>
        streamBufs == old(streamBufs) && clientStreamBufs == old(clientStreamBufs) && clientTxs == old(clientTxs)
      ensures r.Success? ==>
        r.value == (StreamSender(def.tag, def.direction), StreamReader(def.tag, def.direction))
        && entries == old(entries) + [def]
        && (def.direction == ServerToClient ==>
              streamBufs == old(streamBufs)[def.tag := []]
              && clientStreamBufs == old(clientStreamBufs) && clientTxs == old(clientTxs))
        && (def.direction == ClientToServer ==>
              streamBufs == old(streamBufs)
              && clientStreamBufs == old(clientStreamBufs)[def.tag := []]
              && clientTxs == old(clientTxs)[def.tag := None])
      ensures r.Success? <==> def.tag != 0 && forall i :: 0 <= i < |old(entries)| ==> old(entries)[i].tag != def.tag
      ensures sharedTx == old(sharedTx) && deferredReady == old(deferredReady)
      ensures CountDir(entries, ServerToClient)
           == old(CountDir(entries, ServerToClient))
              + (if r.Success? && def.direction == ServerToClient then 1 else 0)
    {
      if def.tag == 0 {
        return Failure(ReservedTag);
      }
      var taken := HasTag(entries, def.tag);
      if taken {
        return Failure(DuplicateTag);
      }
      match def.direction {
        case ServerToClient => DeclareServerToClient(def);
        case ClientToServer => DeclareClientToServer(def);
      }
      r := Success((StreamSender(def.tag, def.direction), StreamReader(def.tag, def.direction)));
    }

    /** The accepting half of `Register` for a server-to-client stream: its entry and an empty buffer. */
    method DeclareServerToClient(def: StreamDef)
      requires Valid() && def.direction == ServerToClient
      requires def.tag != 0 && forall i :: 0 <= i < |entries| ==> entries[i].tag != def.tag
      modifies this
      ensures Valid()
      ensures entries == old(entries) + [def] && streamBufs == old(streamBufs)[def.tag := []]
      ensures clientStreamBufs == old(clientStreamBufs) && clientTxs == old(clientTxs)
      ensures sharedTx == old(sharedTx) && deferredReady == old(deferredReady)
      ensures CountDir(entries, ServerToClient) == old(CountDir(entries, ServerToClient)) + 1
    {
      RegisterKeepsWellFormed(entries, def, streamBufs.Keys, clientStreamBufs.Keys, clientTxs.Keys);
      assert streamBufs[def.tag := []].Keys == streamBufs.Keys + {def.tag};
      streamBufs := streamBufs[def.tag := []];
      entries := entries + [def];
    }

    /** The accepting half of `Register` for a client-to-server stream: its entry, an empty buffer and an empty sender slot. */
    method DeclareClientToServer(def: StreamDef)
      requires Valid() && def.direction == ClientToServer
      requires def.tag != 0 && forall i :: 0 <= i < |entries| ==> entries[i].tag != def.tag
      modifies this
      ensures Valid()
      ensures entries == old(entries) + [def] && streamBufs == old(streamBufs)
      ensures clientStreamBufs == old(clientStreamBufs)[def.tag := []] && clientTxs == old(clientTxs)[def.tag := None]
      ensures sharedTx == old(sharedTx) && deferredReady == old(deferredReady)
      ensures CountDir(entries, ServerToClient) == old(CountDir(entries, ServerToClient))
    {
      RegisterKeepsWellFormed(entries, def, streamBufs.Keys, clientStreamBufs.Keys, clientTxs.Keys);
      assert clientStreamBufs[def.tag := []].Keys == clientStreamBufs.Keys + {def.tag};
      assert clientTxs[def.tag := None].Keys == clientTxs.Keys + {def.tag};
      clientStreamBufs := clientStreamBufs[def.tag := []];
      clientTxs := clientTxs[def.tag := None];
      entries := entries + [def];
    }

    /** Buffers a server-to-client frame for its reader; an unregistered tag drops it. */
    method RouteStreamFrame(tag: Tag, data: Bytes)
      requires Valid()
      modifies this
      ensures Valid()
      ensures streamBufs == PushFrame(old(streamBufs), tag, data)
      ensures entries == old(entries) && sharedTx == old(sharedTx) && clientStreamBufs == old(clientStreamBufs)
      ensures clientTxs == old(clientTxs) && deferredReady == old(deferredReady)
    {
      if tag in streamBufs {
        streamBufs := streamBufs[tag := streamBufs[tag] + [data]];
      }
    }

    /** Buffers a client-to-server frame with its sender; an unregistered tag drops it. */
    method RouteClientStreamFrame(from: ClientId, tag: Tag, data: Bytes)
      requires Valid()
      modifies this
      ensures Valid()
      ensures clientStreamBufs == PushFrame(old(clientStreamBufs), tag, (from, data))
      ensures entries == old(entries) && sharedTx == old(sharedTx) && streamBufs == old(streamBufs)
      ensures clientTxs == old(clientTxs) && deferredReady == old(deferredReady)
    {
      if tag in clientStreamBufs {
        clientStreamBufs := clientStreamBufs[tag := clientStreamBufs[tag] + [(from, data)]];
      }
    }

    /**
     * The number of server-to-client streams, announced to clients.  The
     * source converts it to a byte and panics past 255; distinct non-zero
     * byte tags make that impossible.
     */
    function ServerToClientCount(): (n: nat)
      reads this
      requires Valid()
      ensures n <= 255
      ensures n == |TagsWith(entries, ServerToClient)|
    {
      CountFitsInByte(entries, ServerToClient);
      CountIsTagCount(entries, ServerToClient);
      CountDir(entries, ServerToClient)
    }

    /** Wires every server-to-client sender to a fresh command channel and returns the definitions. */
    method PrepareServerStart() returns (defs: seq<StreamDef>)
      requires Valid()
      modifies this
      ensures Valid()
      ensures defs == entries
      ensures sharedTx == Some(NewChannel(STREAM_CMD_BUFFER_SIZE))
      ensures entries == old(entries) && streamBufs == old(streamBufs) && clientStreamBufs == old(clientStreamBufs)
      ensures clientTxs == old(clientTxs) && deferredReady == old(deferredReady)
    {
      sharedTx := Some(NewChannel(STREAM_CMD_BUFFER_SIZE));
      defs := entries;
    }

    /** Disconnects the server-to-client senders. */
    method OnServerStop()
      requires Valid()
      modifies this
      ensures Valid()
      ensures sharedTx == None
      ensures entries == old(entries) && streamBufs == old(streamBufs) && clientStreamBufs == old(clientStreamBufs)
      ensures clientTxs == old(clientTxs) && deferredReady == old(deferredReady)
    {
      sharedTx := None;
    }

    /**
     * Gives each client-to-server stream a fresh channel, in registration
     * order, and returns their tags (the receivers go to the client task).
     */
    method PrepareClientConnect() returns (tags: seq<Tag>)
      requires Valid()
      modifies this
      ensures Valid()
      ensures tags == TagsInOrder(entries, ClientToServer)
      ensures clientTxs == map t | t in old(clientTxs) :: Some(NewChannel(STREAM_CMD_BUFFER_SIZE))
      ensures entries == old(entries) && sharedTx == old(sharedTx) && streamBufs == old(streamBufs)
      ensures clientStreamBufs == old(clientStreamBufs) && deferredReady == old(deferredReady)
    {
      tags := [];
      ghost var slots0 := clientTxs;
      for k := 0 to |entries|
        invariant entries == old(entries) && sharedTx == old(sharedTx) && streamBufs == old(streamBufs)
        invariant clientStreamBufs == old(clientStreamBufs) && deferredReady == old(deferredReady)
        invariant tags == TagsInOrder(entries[..k], ClientToServer)
        invariant clientTxs.Keys == slots0.Keys
        invariant forall t :: t in clientTxs ==>
          clientTxs[t] == (if t in TagsWith(entries[..k], ClientToServer)
                           then Some(NewChannel(STREAM_CMD_BUFFER_SIZE)) else slots0[t])
      {
        var def := entries[k];
        assert entries[..k + 1] == entries[..k] + [def];
        TagsWithAppend(entries[..k], def, ClientToServer);
        if def.direction == ClientToServer {
          assert def.tag in TagsWith(entries, ClientToServer);
          if def.tag in clientTxs {
            clientTxs := clientTxs[def.tag := Some(NewChannel(STREAM_CMD_BUFFER_SIZE))];
          }
          tags := tags + [def.tag];
        }
      }
      assert entries[..|entries|] == entries;
    }

    /** Disconnects every client-to-server sender. */
    method OnClientDisconnect()
      requires Valid()
      modifies this
      ensures Valid()
      ensures clientTxs == AllClosed(old(clientTxs))
      ensures entries == old(entries) && sharedTx == old(sharedTx) && streamBufs == old(streamBufs)
      ensures clientStreamBufs == old(clientStreamBufs) && deferredReady == old(deferredReady)
    {
      clientTxs := AllClosed(clientTxs);
    }

    method DeferStreamReady(tag: Tag)
      requires Valid()
      modifies this
      ensures Valid()
      ensures deferredReady == old(deferredReady) + [tag]
      ensures entries == old(entries) && sharedTx == old(sharedTx) && streamBufs == old(streamBufs)
      ensures clientStreamBufs == old(clientStreamBufs) && clientTxs == old(clientTxs)
    {
      deferredReady := deferredReady + [tag];
    }

    /** Hands over the deferred tags and leaves none behind. */
    method TakeDeferredReady() returns (tags: seq<Tag>)
      requires Valid()
      modifies this
      ensures Valid()
      ensures tags == old(deferredReady) && deferredReady == []
      ensures entries == old(entries) && sharedTx == old(sharedTx) && streamBufs == old(streamBufs)
      ensures clientStreamBufs == old(clientStreamBufs) && clientTxs == old(clientTxs)
    {
      tags := deferredReady;
      deferredReady := [];
    }

    // Sender operations.  `encoded` is the encoder's output, `None` when encoding failed.

    /** Queues the stream-ready sentinel for one client on a server-to-client stream. */
    method SendStreamReadyTo(s: StreamSender, client: ClientId, encoded: Option<Bytes>)
      returns (r: Outcome<StreamSendError>)
      requires Valid()
      modifies this
      ensures Valid()
      ensures s.direction != ServerToClient ==> r == Fail(SendClosed) && sharedTx == old(sharedTx)
      ensures s.direction == ServerToClient && encoded.None? ==> r == Fail(Encode) && sharedTx == old(sharedTx)
      ensures s.direction == ServerToClient && encoded.Some? ==>
        (r, sharedTx) == Offer(old(sharedTx), (s.tag, WriteTo(client, encoded.value)))
      ensures entries == old(entries) && streamBufs == old(streamBufs) && clientStreamBufs == old(clientStreamBufs)
      ensures clientTxs == old(clientTxs) && deferredReady == old(deferredReady)
    {
      r := SendToServerTask(s, encoded, (b: Bytes) => WriteTo(client, b));
    }

    /** Encodes and queues a message for one client on a server-to-client stream. */
    method SendTo(s: StreamSender, client: ClientId, encoded: Option<Bytes>)
      returns (r: Outcome<StreamSendError>)
      requires Valid()
      modifies this
      ensures Valid()
      ensures s.direction != ServerToClient ==> r == Fail(SendClosed) && sharedTx == old(sharedTx)
      ensures s.direction == ServerToClient && encoded.None? ==> r == Fail(Encode) && sharedTx == old(sharedTx)
      ensures s.direction == ServerToClient && encoded.Some? ==>
        (r, sharedTx) == Offer(old(sharedTx), (s.tag, WriteTo(client, encoded.value)))
      ensures entries == old(entries) && streamBufs == old(streamBufs) && clientStreamBufs == old(clientStreamBufs)
      ensures clientTxs == old(clientTxs) && deferredReady == old(deferredReady)
    {
      r := SendToServerTask(s, encoded, (b: Bytes) => WriteTo(client, b));
    }

    /** Encodes and queues a message for every client on a server-to-client stream. */
    method Broadcast(s: StreamSender, encoded: Option<Bytes>) returns (r: Outcome<StreamSendError>)
      requires Valid()
      modifies this
      ensures Valid()
      ensures s.direction != ServerToClient ==> r == Fail(SendClosed) && sharedTx == old(sharedTx)
      ensures s.direction == ServerToClient && encoded.None? ==> r == Fail(Encode) && sharedTx == old(sharedTx)
      ensures s.direction == ServerToClient && encoded.Some? ==>
        (r, sharedTx) == Offer(old(sharedTx), (s.tag, WriteAll(encoded.value)))
      ensures entries == old(entries) && streamBufs == old(streamBufs) && clientStreamBufs == old(clientStreamBufs)
      ensures clientTxs == old(clientTxs) && deferredReady == old(deferredReady)
    {
      r := SendToServerTask(s, encoded, (b: Bytes) => WriteAll(b));
    }

    /** The shared part of the three server-to-client sends: direction guard, encoding, offer. */
    method SendToServerTask(s: StreamSender, encoded: Option<Bytes>, cmd: Bytes -> StreamWriteCmd)
      returns (r: Outcome<StreamSendError>)
      requires Valid()
      modifies this
      ensures Valid()
      ensures s.direction != ServerToClient ==> r == Fail(SendClosed) && sharedTx == old(sharedTx)
      ensures s.direction == ServerToClient && encoded.None? ==> r == Fail(Encode) && sharedTx == old(sharedTx)
      ensures s.direction == ServerToClient && encoded.Some? ==>
        (r, sharedTx) == Offer(old(sharedTx), (s.tag, cmd(encoded.value)))
      ensures entries == old(entries) && streamBufs == old(streamBufs) && clientStreamBufs == old(clientStreamBufs)
      ensures clientTxs == old(clientTxs) && deferredReady == old(deferredReady)
    {
      if s.direction != ServerToClient {
        return Fail(SendClosed);
      }
      if encoded.None? {
        return Fail(Encode);
      }
      var offered := Offer(sharedTx, (s.tag, cmd(encoded.value)));
      r, sharedTx := offered.0, offered.1;
    }

    /** Encodes and queues a message to the server on a client-to-server stream. */
    method Send(s: StreamSender, encoded: Option<Bytes>) returns (r: Outcome<StreamSendError>)
      requires Valid() && Issued(s.tag, s.direction)
      modifies this
      ensures Valid()
      ensures s.direction != ClientToServer ==> r == Fail(SendClosed) && clientTxs == old(clientTxs)
      ensures s.direction == ClientToServer && encoded.None? ==> r == Fail(Encode) && clientTxs == old(clientTxs)
      ensures s.direction == ClientToServer && encoded.Some? ==>
        s.tag in old(clientTxs)
        && var offered := Offer(old(clientTxs)[s.tag], encoded.value);
           r == offered.0 && clientTxs == old(clientTxs)[s.tag := offered.1]
      ensures entries == old(entries) && sharedTx == old(sharedTx) && streamBufs == old(streamBufs)
      ensures clientStreamBufs == old(clientStreamBufs) && deferredReady == old(deferredReady)
    {
      if s.direction != ClientToServer {
        return Fail(SendClosed);
      }
      if encoded.None? {
        return Fail(Encode);
      }
      assert s.tag in TagsWith(entries, ClientToServer);
      var offered := Offer(clientTxs[s.tag], encoded.value);
      r := offered.0;
      clientTxs := clientTxs[s.tag := offered.1];
    }

    // Reader operations.

    /**
     * Empties the reader's buffer and decodes its frames in arrival order,
     * skipping those that fail to decode.  A client-to-server reader's
     * server-to-client buffer is never routed to, so it yields nothing.
     */
    method Drain<T>(rd: StreamReader, decode: Bytes -> Option<T>) returns (msgs: seq<T>)
      requires Valid() && Issued(rd.tag, rd.direction)
      modifies this
      ensures Valid()
      ensures rd.direction == ServerToClient ==>
        rd.tag in old(streamBufs)
        && msgs == DecodeAll(old(streamBufs)[rd.tag], decode)
        && streamBufs == old(streamBufs)[rd.tag := []]
      ensures rd.direction == ClientToServer ==> msgs == [] && streamBufs == old(streamBufs)
      ensures entries == old(entries) && sharedTx == old(sharedTx) && clientStreamBufs == old(clientStreamBufs)
      ensures clientTxs == old(clientTxs) && deferredReady == old(deferredReady)
    {
      if rd.direction == ServerToClient {
        assert rd.tag in TagsWith(entries, ServerToClient);
        var frames := streamBufs[rd.tag];
        streamBufs := streamBufs[rd.tag := []];
        msgs := DecodeAll(frames, decode);
      } else {
        msgs := [];
      }
    }

    /** The server-side counterpart of `Drain`, keeping each message's sender. */
    method DrainFromClient<T>(rd: StreamReader, decode: Bytes -> Option<T>) returns (msgs: seq<(ClientId, T)>)
      requires Valid() && Issued(rd.tag, rd.direction)
      modifies this
      ensures Valid()
      ensures rd.direction == ClientToServer ==>
        rd.tag in old(clientStreamBufs)
        && msgs == DecodeAllFrom(old(clientStreamBufs)[rd.tag], decode)
        && clientStreamBufs == old(clientStreamBufs)[rd.tag := []]
      ensures rd.direction == ServerToClient ==> msgs == [] && clientStreamBufs == old(clientStreamBufs)
      ensures entries == old(entries) && sharedTx == old(sharedTx) && streamBufs == old(streamBufs)
      ensures clientTxs == old(clientTxs) && deferredReady == old(deferredReady)
    {
      if rd.direction == ClientToServer {
        assert rd.tag in TagsWith(entries, ClientToServer);
        var frames := clientStreamBufs[rd.tag];
        clientStreamBufs := clientStreamBufs[rd.tag := []];
        msgs := DecodeAllFrom(frames, decode);
      } else {
        msgs := [];
      }
    }

    // The per-frame drains.

    /**
     * One frame of `drain_client_events`.  First the stream-ready tags
     * deferred last frame are written, then up to the cap of events are
     * taken from `inbox`: a disconnect ends the session and closes the
     * client stream senders, frames are routed to their readers (and still
     * written), and stream-ready sentinels are deferred to the next frame.
     * `endSession` says whether the session resources are removed.
     */
    method DrainClientEvents<M>(inbox: seq<ClientEvent<M>>)
      returns (written: seq<ClientEvent<M>>, rest: seq<ClientEvent<M>>, endSession: bool)
      requires Valid()
      modifies this
      ensures Valid()
      ensures var n := Min(|inbox|, MAX_NET_EVENTS_PER_FRAME);
        var taken := inbox[..n];
        rest == inbox[n..]
        && written == ReadyEvents(old(deferredReady)) + ClientVisible(taken)
        && deferredReady == ReadyTags(taken)
        && streamBufs == RouteFrames(old(streamBufs), taken)
        && endSession == AnyDisconnected(taken)
        && clientTxs == (if endSession then AllClosed(old(clientTxs)) else old(clientTxs))
      ensures entries == old(entries) && sharedTx == old(sharedTx) && clientStreamBufs == old(clientStreamBufs)
    {
      var ready := TakeDeferredReady();
      written := [];
      for k := 0 to |ready|
        invariant written == ReadyEvents(ready[..k])
        invariant Valid() && deferredReady == []
        invariant entries == old(entries) && sharedTx == old(sharedTx) && streamBufs == old(streamBufs)
        invariant clientStreamBufs == old(clientStreamBufs) && clientTxs == old(clientTxs)
      {
        assert ready[..k + 1] == ready[..k] + [ready[k]];
        ReadyEventsAppend<M>(ready[..k], ready[k]);
        written := written + [StreamReady(ready[k])];
      }
      assert ready[..|ready|] == ready;
      ghost var prefix := written;
      ghost var txs0 := clientTxs;
      rest := inbox;
      endSession := false;
      var count := 0;
      while count < MAX_NET_EVENTS_PER_FRAME
        invariant Valid()
        invariant 0 <= count <= |inbox| && count <= MAX_NET_EVENTS_PER_FRAME
        invariant rest == inbox[count..]
        invariant written == prefix + ClientVisible(inbox[..count])
        invariant deferredReady == ReadyTags(inbox[..count])
        invariant streamBufs == RouteFrames(old(streamBufs), inbox[..count])
        invariant endSession == AnyDisconnected(inbox[..count])
        invariant clientTxs == (if endSession then AllClosed(txs0) else txs0)
        invariant entries == old(entries) && sharedTx == old(sharedTx) && clientStreamBufs == old(clientStreamBufs)
      {
        if |rest| == 0 {
          assert inbox[..count] == inbox[..Min(|inbox|, MAX_NET_EVENTS_PER_FRAME)];
          return;
        }
        var ev := rest[0];
        rest := rest[1..];
        assert inbox[..count + 1] == inbox[..count] + [ev];
        assert inbox[..count + 1][..count] == inbox[..count];
        if ev.Disconnected? {
          OnClientDisconnect();
          endSession := true;
        }
        if ev.StreamFrame? {
          RouteStreamFrame(ev.tag, ev.data);
        }
        if ev.StreamReady? {
          DeferStreamReady(ev.tag);
          count := count + 1;
          continue;
        }
        written := written + [ev];
        count := count + 1;
      }
    }

    /**
     * One frame of `drain_server_events`: up to the cap of events are taken
     * from `inbox`; hosting-stopped ends the session and disconnects the
     * stream senders (and is still written); client stream frames are
     * routed to their readers and not written.
     */
    method DrainServerEvents<M>(inbox: seq<ServerEvent<M>>)
      returns (written: seq<ServerEvent<M>>, rest: seq<ServerEvent<M>>, endSession: bool)
      requires Valid()
      modifies this
      ensures Valid()
      ensures var n := Min(|inbox|, MAX_NET_EVENTS_PER_FRAME);
        var taken := inbox[..n];
        rest == inbox[n..]
        && written == ServerVisible(taken)
        && clientStreamBufs == RouteClientFrames(old(clientStreamBufs), taken)
        && endSession == AnyHostingStopped(taken)
        && sharedTx == (if endSession then None else old(sharedTx))
      ensures entries == old(entries) && streamBufs == old(streamBufs) && clientTxs == old(clientTxs)
      ensures deferredReady == old(deferredReady)
    {
      written, rest, endSession := [], inbox, false;
      var count := 0;
      while count < MAX_NET_EVENTS_PER_FRAME
        invariant Valid()
        invariant 0 <= count <= |inbox| && count <= MAX_NET_EVENTS_PER_FRAME
        invariant rest == inbox[count..]
        invariant written == ServerVisible(inbox[..count])
        invariant clientStreamBufs == RouteClientFrames(old(clientStreamBufs), inbox[..count])
        invariant endSession == AnyHostingStopped(inbox[..count])
        invariant sharedTx == (if endSession then None else old(sharedTx))
        invariant entries == old(entries) && streamBufs == old(streamBufs) && clientTxs == old(clientTxs)
        invariant deferredReady == old(deferredReady)
      {
        if |rest| == 0 {
          assert inbox[..count] == inbox[..Min(|inbox|, MAX_NET_EVENTS_PER_FRAME)];
          return;
        }
        var ev := rest[0];
        rest := rest[1..];
        assert inbox[..count + 1] == inbox[..count] + [ev];
        assert inbox[..count + 1][..count] == inbox[..count];
        if ev.HostingStopped? {
          OnServerStop();
          endSession := true;
        }
        if ev.ClientStreamFrame? {
          RouteClientStreamFrame(ev.from, ev.tag, ev.data);
          count := count + 1;
          continue;
        }
        written := written + [ev];
        count := count + 1;
      }
    }
  }

  lemma ReadyEventsAppend<M>(tags: seq<Tag>, t: Tag)
    ensures ReadyEvents<M>(tags + [t]) == ReadyEvents<M>(tags) + [StreamReady(t)]
  {
  }
}
