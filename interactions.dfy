/**
 * Player interactions: the client-side right-click context menu over
 * tiles (build, select, dismiss) and the server-side dispatch of the
 * interaction requests received on the interactions stream, which
 * toggles tiles and forwards item requests to the item system.
 */
module Interactions {
  import opened Wrappers
  import opened World
  import opened Tiles
  import Items

  /** Tag of the client-to-server interactions stream. */
  const INTERACTIONS_STREAM_TAG: nat := 4

  type ClientId = nat
  type NetId = nat

  /** A request as sent by a client. */
  datatype InteractionRequest =
    | TileToggle(position: Pos, kind: TileKind)
    | ItemPickup(item: NetId)
    | ItemDrop(item: NetId, dropPosition: Vec3)
    | StoreInContainer(item: NetId, container: NetId)
    | TakeFromContainer(item: NetId, container: NetId)

  datatype MouseButton = Left | Right | Middle

  /** A raycast hit on an entity in the world. */
  datatype WorldHit = WorldHit(entity: Entity, button: MouseButton, worldPos: Vec3)

  /** The action carried by a context-menu button: set the tile at `position` to `kind`. */
  datatype ContextMenuAction = ContextMenuAction(position: Pos, kind: TileKind)

  /** The open context menu: its one button and the world point it is anchored to. */
  datatype Menu = Menu(text: string, action: ContextMenuAction, anchor: Vec3)

  /** A tile change applied on the server. */
  datatype TileMutated = TileMutated(position: Pos, kind: TileKind)

  // ---------------------------------------------------------------------
  // Context menu
  // ---------------------------------------------------------------------

  /** The button label and the kind the tile is toggled to, for a tile of kind `k`. */
  function MenuChoice(k: TileKind): (c: (string, TileKind))
    ensures c.1 != k
    ensures k == Wall ==> c == ("Remove Wall", Floor)
    ensures k == Floor ==> c == ("Build Wall", Wall)
  {
    match k
    case Wall => ("Remove Wall", Floor)
    case Floor => ("Build Wall", Wall)
  }

  /** Choosing the menu action twice returns the tile to its kind. */
  lemma MenuChoiceToggles(k: TileKind)
    ensures MenuChoice(MenuChoice(k).1).1 == k
    ensures MenuChoice(k).0 != MenuChoice(MenuChoice(k).1).0
  {
  }

  /** The right-button hits, in order. */
  function RightHits(hits: seq<WorldHit>): (r: seq<WorldHit>)
    ensures forall h :: h in r ==> h in hits && h.button == Right
    ensures forall h :: h in hits && h.button == Right ==> h in r
    ensures |r| <= |hits|
  {
    if |hits| == 0 then []
    else if hits[|hits| - 1].button == Right then RightHits(hits[..|hits| - 1]) + [hits[|hits| - 1]]
    else RightHits(hits[..|hits| - 1])
  }

  /** The state of the context menu after one frame of hits. */
  datatype MenuUpdate = MenuUpdate(dismissed: bool, active: Option<Menu>)

  /**
   * `build_context_menu`: without a right-button hit nothing happens;
   * otherwise the previous menu is dismissed, and the last right-button
   * hit opens a menu if it is a tile on the map.  `tileAt` gives the
   * grid position of each tile entity.
   */
  function BuildContextMenu(hits: seq<WorldHit>, active: Option<Menu>, tileAt: map<Entity, Pos>, tm: Tilemap?)
    : (u: MenuUpdate)
    reads tm
    requires tm != null ==> tm.Valid()
    ensures RightHits(hits) == [] ==> u == MenuUpdate(false, active)
    ensures RightHits(hits) != [] ==> u.dismissed == active.Some?
    ensures RightHits(hits) != [] ==>
      var h := RightHits(hits)[|RightHits(hits)| - 1];
      var onMap := tm != null && h.entity in tileAt && tm.Get(tileAt[h.entity]).Some?;
      (u.active.Some? <==> onMap)
      && (onMap ==>
            var k := tm.Get(tileAt[h.entity]).value;
            u.active == Some(Menu(MenuChoice(k).0, ContextMenuAction(tileAt[h.entity], MenuChoice(k).1), h.worldPos))
            && u.active.value.action.kind != k)
  {
    var right := RightHits(hits);
    if |right| == 0 then MenuUpdate(false, active)
    else
      var hit := right[|right| - 1];
      var dismissed := active.Some?;
      if tm == null || hit.entity !in tileAt then MenuUpdate(dismissed, None)
      else
        var position := tileAt[hit.entity];
        match tm.Get(position)
        case None => MenuUpdate(dismissed, None)
        case Some(kind) =>
          var (text, target) := MenuChoice(kind);
          MenuUpdate(dismissed, Some(Menu(text, ContextMenuAction(position, target), hit.worldPos)))
  }

  /** The hit the menu is built from is the last right-button hit of the frame. */
  lemma {:induction false} LastRightHitIsLast(hits: seq<WorldHit>)
    requires RightHits(hits) != []
    ensures exists i :: (0 <= i < |hits| && hits[i] == RightHits(hits)[|RightHits(hits)| - 1]
                         && hits[i].button == Right && forall j :: i < j < |hits| ==> hits[j].button != Right)
  {
    var last := hits[|hits| - 1];
    if last.button != Right {
      var pre := hits[..|hits| - 1];
      LastRightHitIsLast(pre);
      var i :| 0 <= i < |pre| && pre[i] == RightHits(hits)[|RightHits(hits)| - 1]
        && pre[i].button == Right && forall j :: i < j < |pre| ==> pre[j].button != Right;
      assert hits[i] == pre[i];
      forall j | i < j < |hits|
        ensures hits[j].button != Right
      {
        if j < |pre| {
          assert hits[j] == pre[j];
        }
      }
    }
  }

  /** `dismiss_context_menu`: Escape or any left click closes the open menu. */
  function DismissContextMenu(escapePressed: bool, pointerButtons: seq<MouseButton>, active: Option<Menu>)
    : (r: Option<Menu>)
    ensures r.None? <==> active.None? || escapePressed || Left in pointerButtons
    ensures r.Some? ==> r == active
  {
    if escapePressed || Left in pointerButtons then None else active
  }

  /** `handle_menu_selection`: one tile toggle request per selected action, in order. */
  function HandleMenuSelection(actions: seq<ContextMenuAction>): (r: seq<InteractionRequest>)
    ensures |r| == |actions|
    ensures forall i :: 0 <= i < |actions| ==> r[i] == TileToggle(actions[i].position, actions[i].kind)
  {
    if |actions| == 0 then []
    else HandleMenuSelection(actions[..|actions| - 1]) + [TileToggle(actions[|actions| - 1].position, actions[|actions| - 1].kind)]
  }

  // ---------------------------------------------------------------------
  // Actor resolution
  // ---------------------------------------------------------------------

  /** `resolve_actor`: the first entity controlled by `client`. */
  function ResolveActor(actors: seq<(Entity, ClientId)>, client: ClientId): (r: Option<Entity>)
    ensures r.Some? ==> (exists i :: 0 <= i < |actors| && actors[i] == (r.value, client)
                                 && forall j :: 0 <= j < i ==> actors[j].1 != client)
    ensures r.None? <==> forall i :: 0 <= i < |actors| ==> actors[i].1 != client
  {
    if |actors| == 0 then None
    else if actors[0].1 == client then Some(actors[0].0)
    else
      var r := ResolveActor(actors[1..], client);
      assert forall i :: 1 <= i < |actors| ==> actors[i] == actors[1..][i - 1];
      r
  }

  // ---------------------------------------------------------------------
  // Server-side dispatch
  // ---------------------------------------------------------------------

  /**
   * What dispatch reads: whether a tile map exists and its size, whether
   * the tiles stream sender exists, the optional NetId index and the
   * entities controlled by each client.
   */
  datatype Env = Env(hasTilemap: bool, width: nat, height: nat, hasSender: bool,
                     index: Option<map<NetId, Entity>>, actors: seq<(Entity, ClientId)>)

  /** Everything dispatch writes: local tile events, broadcasts, and item requests. */
  datatype Dispatched = Dispatched(
    mutations: seq<TileMutated>,
    broadcasts: seq<TileMutated>,
    pickups: seq<Items.PickupRequest>,
    drops: seq<Items.DropRequest>,
    stores: seq<Items.StoreRequest>,
    takes: seq<Items.TakeRequest>)

  const NOTHING: Dispatched := Dispatched([], [], [], [], [], [])

  function Resolve(env: Env, id: NetId): Option<Entity> {
    if env.index.Some? && id in env.index.value then Some(env.index.value[id]) else None
  }

  /** Every NetId a request names resolves and its client controls an actor. */
  predicate Resolves(env: Env, from: ClientId, req: InteractionRequest)
    requires !req.TileToggle?
  {
    env.index.Some?
    && Resolve(env, req.item).Some?
    && ((req.StoreInContainer? || req.TakeFromContainer?) ==> Resolve(env, req.container).Some?)
    && ResolveActor(env.actors, from).Some?
  }

  /** The effect of one request on the tile cells and on the outputs. */
  function DispatchStep(env: Env, tiles: seq<TileKind>, out: Dispatched, from: ClientId, req: InteractionRequest)
    : (seq<TileKind>, Dispatched)
    requires |tiles| == env.width * env.height
  {
    match req
    case TileToggle(p, kind) =>
      if !env.hasTilemap then (tiles, out)
      else
        (match Lookup(env.width, env.height, tiles, p)
         case None => (tiles, out)
         case Some(current) =>
           if current == kind then (tiles, out)
           else
             var ev := TileMutated(p, kind);
             (tiles[CoordToIndex(env.width, env.height, p).value := kind],
              out.(mutations := out.mutations + [ev],
                   broadcasts := if env.hasSender then out.broadcasts + [ev] else out.broadcasts)))
    case ItemPickup(item) =>
      if !Resolves(env, from, req) then (tiles, out)
      else (tiles, out.(pickups := out.pickups
                          + [Items.PickupRequest(ResolveActor(env.actors, from).value, Resolve(env, item).value)]))
    case ItemDrop(item, dropPosition) =>
      if !Resolves(env, from, req) then (tiles, out)
      else (tiles, out.(drops := out.drops
                        + [Items.DropRequest(ResolveActor(env.actors, from).value, Resolve(env, item).value, dropPosition)]))
    case StoreInContainer(item, container) =>
      if !Resolves(env, from, req) then (tiles, out)
      else (tiles, out.(stores := out.stores
                         + [Items.StoreRequest(ResolveActor(env.actors, from).value, Resolve(env, item).value,
                                               Resolve(env, container).value)]))
    case TakeFromContainer(item, container) =>
      if !Resolves(env, from, req) then (tiles, out)
      else (tiles, out.(takes := out.takes
                        + [Items.TakeRequest(ResolveActor(env.actors, from).value, Resolve(env, item).value,
                                             Resolve(env, container).value)]))
  }

  function DispatchAll(env: Env, tiles: seq<TileKind>, requests: seq<(ClientId, InteractionRequest)>)
    : (r: (seq<TileKind>, Dispatched))
    requires |tiles| == env.width * env.height
    ensures |r.0| == |tiles|
  {
    if |requests| == 0 then (tiles, NOTHING)
    else
      var before := DispatchAll(env, tiles, requests[..|requests| - 1]);
      var last := requests[|requests| - 1];
      DispatchStep(env, before.0, before.1, last.0, last.1)
  }

  /** A toggle off the map, or to the kind the tile already has, changes nothing and emits nothing. */
  lemma ToggleRejected(env: Env, tiles: seq<TileKind>, out: Dispatched, from: ClientId, p: Pos, kind: TileKind)
    requires |tiles| == env.width * env.height
    requires !env.hasTilemap || !InBounds(env.width, env.height, p) || Lookup(env.width, env.height, tiles, p) == Some(kind)
    ensures DispatchStep(env, tiles, out, from, TileToggle(p, kind)) == (tiles, out)
  {
  }

  /**
   * A toggle on the map to a different kind sets exactly that cell and
   * emits exactly one mutation, which is broadcast only when the sender
   * exists; no item request is affected.
   */
  lemma ToggleApplied(env: Env, tiles: seq<TileKind>, out: Dispatched, from: ClientId, p: Pos, kind: TileKind)
    requires |tiles| == env.width * env.height
    requires env.hasTilemap && InBounds(env.width, env.height, p) && Lookup(env.width, env.height, tiles, p) != Some(kind)
    ensures var (tiles', out') := DispatchStep(env, tiles, out, from, TileToggle(p, kind));
      Lookup(env.width, env.height, tiles', p) == Some(kind)
      && (forall q :: q != p ==> Lookup(env.width, env.height, tiles', q) == Lookup(env.width, env.height, tiles, q))
      && out'.mutations == out.mutations + [TileMutated(p, kind)]
      && out'.broadcasts == (if env.hasSender then out.broadcasts + [TileMutated(p, kind)] else out.broadcasts)
      && out'.(mutations := out.mutations, broadcasts := out.broadcasts) == out
  {
    var (tiles', out') := DispatchStep(env, tiles, out, from, TileToggle(p, kind));
    forall q | q != p
      ensures Lookup(env.width, env.height, tiles', q) == Lookup(env.width, env.height, tiles, q)
    {
      if InBounds(env.width, env.height, q) && CoordToIndex(env.width, env.height, q) == CoordToIndex(env.width, env.height, p) {
        CoordToIndexInjective(env.width, env.height, p, q);
      }
    }
  }

  /**
   * An item request leaves the tiles alone and is forwarded, with the
   * client's actor and the resolved entities, exactly when everything it
   * names resolves, and nothing else is written; otherwise it is dropped
   * and nothing changes.
   */
  lemma ItemRequestForwarded(env: Env, tiles: seq<TileKind>, out: Dispatched, from: ClientId, req: InteractionRequest)
    requires |tiles| == env.width * env.height && !req.TileToggle?
    ensures var (tiles', out') := DispatchStep(env, tiles, out, from, req);
      tiles' == tiles && out'.mutations == out.mutations && out'.broadcasts == out.broadcasts
      && (|out'.pickups| + |out'.drops| + |out'.stores| + |out'.takes|
          == |out.pickups| + |out.drops| + |out.stores| + |out.takes| + (if Resolves(env, from, req) then 1 else 0))
    ensures Resolves(env, from, req) ==>
      var actor := ResolveActor(env.actors, from).value;
      var (tiles', out') := DispatchStep(env, tiles, out, from, req);
      match req
      case ItemPickup(item) =>
        out' == out.(pickups := out.pickups + [Items.PickupRequest(actor, env.index.value[item])])
      case ItemDrop(item, at) =>
        out' == out.(drops := out.drops + [Items.DropRequest(actor, env.index.value[item], at)])
      case StoreInContainer(item, c) =>
        out' == out.(stores := out.stores + [Items.StoreRequest(actor, env.index.value[item], env.index.value[c])])
      case TakeFromContainer(item, c) =>
        out' == out.(takes := out.takes + [Items.TakeRequest(actor, env.index.value[item], env.index.value[c])])
    ensures !Resolves(env, from, req) ==> DispatchStep(env, tiles, out, from, req) == (tiles, out)
  {
  }

  /** Every broadcast tile change is a local one, and with a sender every local one is broadcast. */
  lemma {:induction false} BroadcastsMirrorMutations(env: Env, tiles: seq<TileKind>, requests: seq<(ClientId, InteractionRequest)>)
    requires |tiles| == env.width * env.height
    ensures DispatchAll(env, tiles, requests).1.broadcasts
      == if env.hasSender then DispatchAll(env, tiles, requests).1.mutations else []
  {
    if |requests| > 0 {
      BroadcastsMirrorMutations(env, tiles, requests[..|requests| - 1]);
    }
  }

  /**
   * Round trip through the menu: the action offered for an on-map tile,
   * once selected and dispatched, flips that tile and emits its mutation.
   */
  lemma MenuSelectionFlipsTile(env: Env, tiles: seq<TileKind>, from: ClientId, p: Pos)
    requires |tiles| == env.width * env.height
    requires env.hasTilemap && InBounds(env.width, env.height, p)
    ensures var current := Lookup(env.width, env.height, tiles, p).value;
      var action := ContextMenuAction(p, MenuChoice(current).1);
      var requests := HandleMenuSelection([action]);
      var (tiles', out) := DispatchAll(env, tiles, seq(|requests|, i requires 0 <= i < |requests| => (from, requests[i])));
      Lookup(env.width, env.height, tiles', p) == Some(MenuChoice(current).1)
      && out.mutations == [TileMutated(p, MenuChoice(current).1)]
  {
    var current := Lookup(env.width, env.height, tiles, p).value;
    var action := ContextMenuAction(p, MenuChoice(current).1);
    var requests := HandleMenuSelection([action]);
    var batch := seq(|requests|, i requires 0 <= i < |requests| => (from, requests[i]));
    assert batch == [(from, TileToggle(p, MenuChoice(current).1))];
    assert batch[..0] == [];
    ToggleApplied(env, tiles, NOTHING, from, p, MenuChoice(current).1);
  }

  function TilesOf(tm: Tilemap?): seq<TileKind>
    reads tm
  {
    if tm == null then [] else tm.tiles
  }

  function EnvFor(tm: Tilemap?, hasSender: bool, index: Option<map<NetId, Entity>>, actors: seq<(Entity, ClientId)>): Env {
    if tm == null then Env(false, 0, 0, hasSender, index, actors)
    else Env(true, tm.width, tm.height, hasSender, index, actors)
  }

  /**
   * `dispatch_interaction`: applies the drained requests in order to the
   * tile map (when there is one) and collects the events and forwarded
   * item requests.
   */
  method DispatchInteraction(requests: seq<(ClientId, InteractionRequest)>, tm: Tilemap?, hasSender: bool,
                             index: Option<map<NetId, Entity>>, actors: seq<(Entity, ClientId)>)
    returns (out: Dispatched)
    requires tm != null ==> tm.Valid()
    modifies tm
    ensures tm != null ==> tm.Valid()
    ensures (TilesOf(tm), out) == DispatchAll(EnvFor(tm, hasSender, index, actors), old(TilesOf(tm)), requests)
  {
    ghost var env := EnvFor(tm, hasSender, index, actors);
    ghost var tiles0 := TilesOf(tm);
    out := NOTHING;
    for k := 0 to |requests|
      invariant tm != null ==> tm.Valid()
      invariant (TilesOf(tm), out) == DispatchAll(env, tiles0, requests[..k])
    {
      assert requests[..k + 1][..k] == requests[..k];
      var (from, req) := requests[k];
      match req {
        case TileToggle(p, kind) =>
          if tm == null {
            continue;
          }
          var current := tm.Get(p);
          if current.None? {
            continue;
          }
          if current.value == kind {
            continue;
          }
          var _ := tm.Set(p, kind);
          var ev := TileMutated(p, kind);
          out := out.(mutations := out.mutations + [ev]);
          if !hasSender {
            continue;
          }
          out := out.(broadcasts := out.broadcasts + [ev]);
        case ItemPickup(itemId) =>
          if index.None? || itemId !in index.value {
            continue;
          }
          var item := index.value[itemId];
          var actor := ResolveActor(actors, from);
          if actor.None? {
            continue;
          }
          out := out.(pickups := out.pickups + [Items.PickupRequest(actor.value, item)]);
        case ItemDrop(itemId, dropPosition) =>
          if index.None? || itemId !in index.value {
            continue;
          }
          var item := index.value[itemId];
          var actor := ResolveActor(actors, from);
          if actor.None? {
            continue;
          }
          out := out.(drops := out.drops + [Items.DropRequest(actor.value, item, dropPosition)]);
        case StoreInContainer(itemId, containerId) =>
          if index.None? || itemId !in index.value {
            continue;
          }
          var item := index.value[itemId];
          if containerId !in index.value {
            continue;
          }
          var container := index.value[containerId];
          var actor := ResolveActor(actors, from);
          if actor.None? {
            continue;
          }
          out := out.(stores := out.stores + [Items.StoreRequest(actor.value, item, container)]);
        case TakeFromContainer(itemId, containerId) =>
          if index.None? || itemId !in index.value {
            continue;
          }
          var item := index.value[itemId];
          if containerId !in index.value {
            continue;
          }
          var container := index.value[containerId];
          var actor := ResolveActor(actors, from);
          if actor.None? {
            continue;
          }
          out := out.(takes := out.takes + [Items.TakeRequest(actor.value, item, container)]);
      }
    }
    assert requests[..|requests|] == requests;
  }
}
