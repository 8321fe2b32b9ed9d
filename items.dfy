/**
 * Server-side item handling: fixed-size slot containers (hands hold one
 * item) and the per-frame processing of pickup, drop, store and take
 * requests.  Component changes (stashed physics, parenting, visibility)
 * are deferred commands, so every request of a frame is validated
 * against the component state from before the frame; container slots
 * are updated immediately and later requests see them.
 */
module Items {
  import opened Wrappers
  import opened World

  /** The default interaction range, in world units. */
  const DEFAULT_INTERACTION_RANGE: real := 2.0

  /** A container's slots, as a value. */
  type Slots = seq<Option<Entity>>

  predicate HasSpaceIn(s: Slots) {
    exists j :: 0 <= j < |s| && s[j].None?
  }

  predicate Holds(s: Slots, e: Entity) {
    exists j :: 0 <= j < |s| && s[j] == Some(e)
  }

  /** The first empty slot at or after `i`. */
  function FirstFreeFrom(s: Slots, i: nat): (r: Option<nat>)
    requires i <= |s|
    ensures r.Some? ==> (i <= r.value < |s| && s[r.value].None?
                         && forall j :: i <= j < r.value ==> s[j].Some?)
    ensures r.None? ==> forall j :: i <= j < |s| ==> s[j].Some?
    decreases |s| - i
  {
    if i == |s| then None else if s[i].None? then Some(i) else FirstFreeFrom(s, i + 1)
  }

  /** The first slot at or after `i` that holds `e`. */
  function FirstHoldingFrom(s: Slots, e: Entity, i: nat): (r: Option<nat>)
    requires i <= |s|
    ensures r.Some? ==> (i <= r.value < |s| && s[r.value] == Some(e)
                         && forall j :: i <= j < r.value ==> s[j] != Some(e))
    ensures r.None? ==> forall j :: i <= j < |s| ==> s[j] != Some(e)
    decreases |s| - i
  {
    if i == |s| then None else if s[i] == Some(e) then Some(i) else FirstHoldingFrom(s, e, i + 1)
  }

  /** `e` placed in the first free slot; a full container is unchanged. */
  function Inserted(s: Slots, e: Entity): Slots {
    match FirstFreeFrom(s, 0)
    case None => s
    case Some(i) => s[i := Some(e)]
  }

  /** The first slot holding `e` emptied; unchanged when no slot holds it. */
  function Removed(s: Slots, e: Entity): Slots {
    match FirstHoldingFrom(s, e, 0)
    case None => s
    case Some(i) => s[i := None]
  }

  /** Inserting into a container with space makes it hold the item, in the first free slot. */
  lemma InsertedHolds(s: Slots, e: Entity)
    requires HasSpaceIn(s)
    ensures |Inserted(s, e)| == |s|
    ensures Holds(Inserted(s, e), e)
    ensures FirstFreeFrom(s, 0).Some?
  {
    var i := FirstFreeFrom(s, 0).value;
    assert Inserted(s, e)[i] == Some(e);
  }

  /** Removing an item that was just inserted restores the container. */
  lemma RemoveUndoesInsert(s: Slots, e: Entity)
    requires HasSpaceIn(s) && !Holds(s, e)
    ensures Removed(Inserted(s, e), e) == s
  {
    var i := FirstFreeFrom(s, 0).value;
    var t := Inserted(s, e);
    assert t[i] == Some(e);
    forall j | 0 <= j < |t| && j != i
      ensures t[j] != Some(e)
    {
      assert t[j] == s[j];
    }
    assert FirstHoldingFrom(t, e, 0) == Some(i);
    assert t[i := None] == s;
  }

  /** Removing an item leaves every free slot free, so a container with room keeps room. */
  lemma RemovedKeepsSpace(s: Slots, e: Entity)
    requires HasSpaceIn(s)
    ensures HasSpaceIn(Removed(s, e))
  {
    var j :| 0 <= j < |s| && s[j].None?;
    assert Removed(s, e)[j].None?;
  }

  /** Removal empties exactly one slot holding the item, so an item held once is gone afterwards. */
  lemma RemovedLetsGo(s: Slots, e: Entity)
    requires forall a, b :: 0 <= a < b < |s| && s[a] == Some(e) ==> s[b] != Some(e)
    ensures |Removed(s, e)| == |s|
    ensures !Holds(Removed(s, e), e)
    ensures Holds(s, e) ==> HasSpaceIn(Removed(s, e))
  {
    var r := FirstHoldingFrom(s, e, 0);
    if r.Some? {
      var t := Removed(s, e);
      assert t[r.value].None?;
      forall j | 0 <= j < |t|
        ensures t[j] != Some(e)
      {
        if j != r.value {
          assert t[j] == s[j];
        }
      }
    }
  }

  /** An inventory container: a fixed number of slots, each empty or holding one item. */
  class Container {
    const slots: array<Option<Entity>>

    /** An empty container with `capacity` slots. */
    constructor WithCapacity(capacity: nat)
      ensures fresh(slots)
      ensures slots[..] == seq(capacity, _ => None)
      ensures Capacity() == capacity
    {
      slots := new Option<Entity>[capacity](_ => None);
    }

    /** The number of slots, fixed when the container is made; with none there is never space. */
    function Capacity(): (n: nat)
      reads slots
      ensures n == |slots[..]|
      ensures n == 0 ==> !HasSpaceIn(slots[..])
    {
      slots.Length
    }

    function HasSpace(): (b: bool)
      reads slots
      ensures b <==> HasSpaceIn(slots[..])
    {
      exists j :: 0 <= j < slots.Length && slots[j].None?
    }

    function Contains(e: Entity): (b: bool)
      reads slots
      ensures b <==> Holds(slots[..], e)
    {
      exists j :: 0 <= j < slots.Length && slots[j] == Some(e)
    }

    /** Puts `e` in the first free slot and returns that slot, or `None` when full. */
    method Insert(e: Entity) returns (r: Option<nat>)
      modifies slots
      ensures r == FirstFreeFrom(old(slots[..]), 0)
      ensures slots[..] == Inserted(old(slots[..]), e)
    {
      for i := 0 to slots.Length
        invariant slots[..] == old(slots[..])
        invariant forall j :: 0 <= j < i ==> slots[j].Some?
      {
        if slots[i].None? {
          assert FirstFreeFrom(slots[..], i) == Some(i);
          slots[i] := Some(e);
          return Some(i);
        }
        assert FirstFreeFrom(slots[..], i) == FirstFreeFrom(slots[..], i + 1);
      }
      return None;
    }

    /** Empties the first slot holding `e`; reports whether there was one. */
    method Remove(e: Entity) returns (removed: bool)
      modifies slots
      ensures removed <==> Holds(old(slots[..]), e)
      ensures slots[..] == Removed(old(slots[..]), e)
    {
      for i := 0 to slots.Length
        invariant slots[..] == old(slots[..])
        invariant forall j :: 0 <= j < i ==> slots[j] != Some(e)
      {
        if slots[i] == Some(e) {
          assert FirstHoldingFrom(slots[..], e, i) == Some(i);
          slots[i] := None;
          return true;
        }
        assert FirstHoldingFrom(slots[..], e, i) == FirstHoldingFrom(slots[..], e, i + 1);
      }
      return false;
    }
  }

  /** Each entity's container has its own slot array. */
  predicate Separate(cs: map<Entity, Container>) {
    forall a, b :: a in cs && b in cs && a != b ==> cs[a].slots != cs[b].slots
  }

  function Footprint(cs: map<Entity, Container>): set<object> {
    set e | e in cs :: cs[e].slots
  }

  /** The slot contents of every container. */
  function Contents(cs: map<Entity, Container>): (m: map<Entity, Slots>)
    reads Footprint(cs)
    ensures m.Keys == cs.Keys
  {
    map e | e in cs :: cs[e].slots[..]
  }

  /** Gives every newly added hand slot an empty one-slot container. */
  method InitHandContainers(added: seq<Entity>) returns (cs: map<Entity, Container>)
    ensures cs.Keys == set e | e in added
    ensures Separate(cs)
    ensures forall e :: e in cs ==> fresh(cs[e].slots) && cs[e].slots[..] == [None]
  {
    cs := map[];
    for k := 0 to |added|
      invariant cs.Keys == set e | e in added[..k]
      invariant Separate(cs)
      invariant forall e :: e in cs ==> fresh(cs[e].slots) && cs[e].slots[..] == [None]
    {
      var c := new Container.WithCapacity(1);
      assert added[..k + 1] == added[..k] + [added[k]];
      cs := cs[added[k] := c];
    }
    assert added[..|added|] == added;
  }

  // ---------------------------------------------------------------------
  // Requests
  // ---------------------------------------------------------------------

  datatype PickupRequest = PickupRequest(actor: Entity, item: Entity)
  datatype DropRequest = DropRequest(actor: Entity, item: Entity, dropPosition: Vec3)
  datatype StoreRequest = StoreRequest(actor: Entity, item: Entity, container: Entity)
  datatype TakeRequest = TakeRequest(actor: Entity, item: Entity, container: Entity)

  datatype ItemActionEvent =
    | PickedUp(item: Entity, hand: Entity)
    | Dropped(item: Entity, position: Vec3)
    | Stored(item: Entity, container: Entity)
    | Taken(item: Entity, hand: Entity)

  /** The optional components of an entity carrying the item marker. */
  datatype ItemInfo = ItemInfo(hasCollider: bool, hasGravity: bool, stashed: bool, parented: bool)

  /**
   * The deferred component commands an accepted request issues on its
   * item.  They take effect only after the system has run.
   */
  datatype ItemCommand =
      /** Pickup: stash the collider and gravity, remove the physics components, reset the transform, parent to the hand. */
    | HoldInHand(item: Entity, hand: Entity)
      /** Drop: unparent, remove the stash, move to the position, restore the rigid body, collider, gravity and a zero velocity. */
    | PlaceInWorld(item: Entity, position: Vec3)
      /** Store: unparent and hide. */
    | HideInContainer(item: Entity)
      /** Take: stash and remove the physics as a pickup does, show the item, reset the transform, parent to the hand. */
    | ShowInHand(item: Entity, hand: Entity)

  /** An item's optional components once one command has been applied to it. */
  function AfterCommand(info: ItemInfo, c: ItemCommand): ItemInfo {
    match c
    case HoldInHand(_, _) => ItemInfo(false, false, true, true)
    case PlaceInWorld(_, _) => ItemInfo(true, true, false, false)
    case HideInContainer(_) => info.(parented := false)
    case ShowInHand(_, _) => ItemInfo(false, false, true, true)
  }

  /** The item components the next frame sees, once a frame's commands have been applied in order. */
  function NextItems(items: map<Entity, ItemInfo>, cmds: seq<ItemCommand>): (r: map<Entity, ItemInfo>)
    ensures r.Keys == items.Keys
  {
    if |cmds| == 0 then items
    else
      var before := NextItems(items, cmds[..|cmds| - 1]);
      var c := cmds[|cmds| - 1];
      if c.item in before then before[c.item := AfterCommand(before[c.item], c)] else before
  }

  /**
   * The component state the requests of one frame are validated against:
   * the item entities, each entity's children, which entities are hand
   * slots, world positions, and the interaction range.
   */
  datatype Snapshot = Snapshot(
    items: map<Entity, ItemInfo>,
    children: map<Entity, seq<Entity>>,
    hands: set<Entity>,
    positions: map<Entity, Vec3>,
    range: real)

  /** Two entities both have transforms and are within reach of each other. */
  predicate Reachable(snap: Snapshot, a: Entity, b: Entity) {
    a in snap.positions && b in snap.positions && InRange(snap.positions[a], snap.positions[b], snap.range)
  }

  predicate HandWithSpaceAt(snap: Snapshot, state: map<Entity, Slots>, c: Entity) {
    c in snap.hands && c in state && HasSpaceIn(state[c])
  }

  predicate HandHoldingAt(snap: Snapshot, state: map<Entity, Slots>, c: Entity, item: Entity) {
    c in snap.hands && c in state && Holds(state[c], item)
  }

  /** The first of `kids` that is a hand slot with a container that has space. */
  function FirstHandWithSpace(snap: Snapshot, state: map<Entity, Slots>, kids: seq<Entity>): (r: Option<Entity>)
    ensures r.Some? ==> (exists i :: 0 <= i < |kids| && kids[i] == r.value && HandWithSpaceAt(snap, state, kids[i])
                                 && forall j :: 0 <= j < i ==> !HandWithSpaceAt(snap, state, kids[j]))
    ensures r.None? <==> forall i :: 0 <= i < |kids| ==> !HandWithSpaceAt(snap, state, kids[i])
  {
    if |kids| == 0 then None
    else if HandWithSpaceAt(snap, state, kids[0]) then Some(kids[0])
    else
      var r := FirstHandWithSpace(snap, state, kids[1..]);
      assert forall i :: 1 <= i < |kids| ==> kids[i] == kids[1..][i - 1];
      r
  }

  /** The first of `kids` that is a hand slot whose container holds `item`. */
  function FirstHandHolding(snap: Snapshot, state: map<Entity, Slots>, kids: seq<Entity>, item: Entity)
    : (r: Option<Entity>)
    ensures r.Some? ==> (exists i :: 0 <= i < |kids| && kids[i] == r.value && HandHoldingAt(snap, state, kids[i], item)
                                 && forall j :: 0 <= j < i ==> !HandHoldingAt(snap, state, kids[j], item))
    ensures r.None? <==> forall i :: 0 <= i < |kids| ==> !HandHoldingAt(snap, state, kids[i], item)
  {
    if |kids| == 0 then None
    else if HandHoldingAt(snap, state, kids[0], item) then Some(kids[0])
    else
      var r := FirstHandHolding(snap, state, kids[1..], item);
      assert forall i :: 1 <= i < |kids| ==> kids[i] == kids[1..][i - 1];
      r
  }

  function HandWithSpace(snap: Snapshot, state: map<Entity, Slots>, actor: Entity): Option<Entity> {
    if actor in snap.children then FirstHandWithSpace(snap, state, snap.children[actor]) else None
  }

  function HandHolding(snap: Snapshot, state: map<Entity, Slots>, actor: Entity, item: Entity): Option<Entity> {
    if actor in snap.children then FirstHandHolding(snap, state, snap.children[actor], item) else None
  }

  /** The searched slot, found among the actor's children: a hand with space, or `None` if it has none. */
  lemma HandWithSpaceSound(snap: Snapshot, state: map<Entity, Slots>, actor: Entity)
    ensures HandWithSpace(snap, state, actor).Some? ==>
      var h := HandWithSpace(snap, state, actor).value;
      actor in snap.children && h in snap.children[actor] && HandWithSpaceAt(snap, state, h)
    ensures HandWithSpace(snap, state, actor).None? <==>
      (actor !in snap.children
       || forall c :: c in snap.children[actor] ==> !HandWithSpaceAt(snap, state, c))
  {
  }

  /** The item is in the hand `HandHolding` reports, and no hand of the actor holds it when it reports none. */
  lemma HandHoldingSound(snap: Snapshot, state: map<Entity, Slots>, actor: Entity, item: Entity)
    ensures HandHolding(snap, state, actor, item).Some? ==>
      var h := HandHolding(snap, state, actor, item).value;
      actor in snap.children && h in snap.children[actor] && HandHoldingAt(snap, state, h, item)
    ensures HandHolding(snap, state, actor, item).None? <==>
      (actor !in snap.children
       || forall c :: c in snap.children[actor] ==> !HandHoldingAt(snap, state, c, item))
  {
  }

  /**
   * The effect of one request: the new container contents, the events
   * written and the component commands issued (none or one of each).
   */
  type Effect = (map<Entity, Slots>, seq<ItemActionEvent>, seq<ItemCommand>)

  function PickupStep(snap: Snapshot, state: map<Entity, Slots>, r: PickupRequest): Effect {
    if r.item !in snap.items then (state, [], [])
    else
      var info := snap.items[r.item];
      if info.stashed || info.parented then (state, [], [])
      else if !info.hasCollider || !info.hasGravity then (state, [], [])
      else if !Reachable(snap, r.actor, r.item) then (state, [], [])
      else match HandWithSpace(snap, state, r.actor)
        case None => (state, [], [])
        case Some(h) => (state[h := Inserted(state[h], r.item)], [PickedUp(r.item, h)], [HoldInHand(r.item, h)])
  }

  function DropStep(snap: Snapshot, state: map<Entity, Slots>, r: DropRequest): Effect {
    if r.item !in snap.items || !snap.items[r.item].stashed then (state, [], [])
    else if r.actor !in snap.positions || !InRange(snap.positions[r.actor], r.dropPosition, snap.range) then (state, [], [])
    else match HandHolding(snap, state, r.actor, r.item)
      case None => (state, [], [])
      case Some(h) =>
        (state[h := Removed(state[h], r.item)], [Dropped(r.item, r.dropPosition)], [PlaceInWorld(r.item, r.dropPosition)])
  }

  function StoreStep(snap: Snapshot, state: map<Entity, Slots>, r: StoreRequest): Effect {
    if r.item !in snap.items then (state, [], [])
    else match HandHolding(snap, state, r.actor, r.item)
      case None => (state, [], [])
      case Some(h) =>
        if !Reachable(snap, r.actor, r.container) then (state, [], [])
        else if r.container !in state || !HasSpaceIn(state[r.container]) then (state, [], [])
        else
          var emptied := state[h := Removed(state[h], r.item)];
          (emptied[r.container := Inserted(emptied[r.container], r.item)], [Stored(r.item, r.container)],
           [HideInContainer(r.item)])
  }

  function TakeStep(snap: Snapshot, state: map<Entity, Slots>, r: TakeRequest): Effect {
    if r.item !in snap.items then (state, [], [])
    else if r.container !in state || !Holds(state[r.container], r.item) then (state, [], [])
    else match HandWithSpace(snap, state, r.actor)
      case None => (state, [], [])
      case Some(h) =>
        if !Reachable(snap, r.actor, r.container) then (state, [], [])
        else if !snap.items[r.item].hasCollider || !snap.items[r.item].hasGravity then (state, [], [])
        else
          var emptied := state[r.container := Removed(state[r.container], r.item)];
          (emptied[h := Inserted(emptied[h], r.item)], [Taken(r.item, h)], [ShowInHand(r.item, h)])
  }

  function PickupAll(snap: Snapshot, state: map<Entity, Slots>, rs: seq<PickupRequest>): Effect {
    if |rs| == 0 then (state, [], [])
    else
      var before := PickupAll(snap, state, rs[..|rs| - 1]);
      var step := PickupStep(snap, before.0, rs[|rs| - 1]);
      (step.0, before.1 + step.1, before.2 + step.2)
  }

  function DropAll(snap: Snapshot, state: map<Entity, Slots>, rs: seq<DropRequest>): Effect {
    if |rs| == 0 then (state, [], [])
    else
      var before := DropAll(snap, state, rs[..|rs| - 1]);
      var step := DropStep(snap, before.0, rs[|rs| - 1]);
      (step.0, before.1 + step.1, before.2 + step.2)
  }

  function StoreAll(snap: Snapshot, state: map<Entity, Slots>, rs: seq<StoreRequest>): Effect {
    if |rs| == 0 then (state, [], [])
    else
      var before := StoreAll(snap, state, rs[..|rs| - 1]);
      var step := StoreStep(snap, before.0, rs[|rs| - 1]);
      (step.0, before.1 + step.1, before.2 + step.2)
  }

  function TakeAll(snap: Snapshot, state: map<Entity, Slots>, rs: seq<TakeRequest>): Effect {
    if |rs| == 0 then (state, [], [])
    else
      var before := TakeAll(snap, state, rs[..|rs| - 1]);
      var step := TakeStep(snap, before.0, rs[|rs| - 1]);
      (step.0, before.1 + step.1, before.2 + step.2)
  }

  /** One frame: all pickups, then drops, then stores, then takes. */
  function HandleAll(snap: Snapshot, state: map<Entity, Slots>, pickups: seq<PickupRequest>, drops: seq<DropRequest>,
                     stores: seq<StoreRequest>, takes: seq<TakeRequest>): Effect
  {
    var p := PickupAll(snap, state, pickups);
    var d := DropAll(snap, p.0, drops);
    var s := StoreAll(snap, d.0, stores);
    var t := TakeAll(snap, s.0, takes);
    (t.0, p.1 + d.1 + s.1 + t.1, p.2 + d.2 + s.2 + t.2)
  }

  // Properties of the request rules.

  /** An accepted pickup puts the item in a hand of the actor that had room, and nothing else changes. */
  lemma PickupAccepted(snap: Snapshot, state: map<Entity, Slots>, r: PickupRequest)
    requires PickupStep(snap, state, r).1 != []
    ensures r.item in snap.items
    ensures var info := snap.items[r.item];
      !info.stashed && !info.parented && info.hasCollider && info.hasGravity
    ensures Reachable(snap, r.actor, r.item)
    ensures var h := HandWithSpace(snap, state, r.actor);
      h.Some? && h.value in snap.children[r.actor] && HandWithSpaceAt(snap, state, h.value)
      && PickupStep(snap, state, r)
         == (state[h.value := Inserted(state[h.value], r.item)], [PickedUp(r.item, h.value)], [HoldInHand(r.item, h.value)])
      && Holds(PickupStep(snap, state, r).0[h.value], r.item)
  {
    HandWithSpaceSound(snap, state, r.actor);
    var h := HandWithSpace(snap, state, r.actor).value;
    InsertedHolds(state[h], r.item);
  }

  /** An accepted drop empties the hand slot that held the item. */
  lemma DropAccepted(snap: Snapshot, state: map<Entity, Slots>, r: DropRequest)
    requires DropStep(snap, state, r).1 != []
    ensures r.item in snap.items && snap.items[r.item].stashed
    ensures r.actor in snap.positions && InRange(snap.positions[r.actor], r.dropPosition, snap.range)
    ensures var h := HandHolding(snap, state, r.actor, r.item);
      h.Some? && HandHoldingAt(snap, state, h.value, r.item)
      && DropStep(snap, state, r)
         == (state[h.value := Removed(state[h.value], r.item)], [Dropped(r.item, r.dropPosition)],
             [PlaceInWorld(r.item, r.dropPosition)])
  {
    HandHoldingSound(snap, state, r.actor, r.item);
  }

  /**
   * An accepted store moves the item from the actor's hand into a
   * reachable container with room: the hand's slot is emptied, the item
   * is inserted into the container, and no other container changes.
   */
  lemma StoreAccepted(snap: Snapshot, state: map<Entity, Slots>, r: StoreRequest)
    requires StoreStep(snap, state, r).1 != []
    ensures r.item in snap.items
    ensures Reachable(snap, r.actor, r.container)
    ensures r.container in state && HasSpaceIn(state[r.container])
    ensures var h := HandHolding(snap, state, r.actor, r.item);
      h.Some? && h.value in snap.children[r.actor] && HandHoldingAt(snap, state, h.value, r.item)
    ensures var h := HandHolding(snap, state, r.actor, r.item).value;
      var emptied := state[h := Removed(state[h], r.item)];
      StoreStep(snap, state, r)
        == (emptied[r.container := Inserted(emptied[r.container], r.item)], [Stored(r.item, r.container)],
            [HideInContainer(r.item)])
    ensures Holds(StoreStep(snap, state, r).0[r.container], r.item)
    ensures var h := HandHolding(snap, state, r.actor, r.item).value;
      r.container != h ==> StoreStep(snap, state, r).0[h] == Removed(state[h], r.item)
  {
    HandHoldingSound(snap, state, r.actor, r.item);
    var h := HandHolding(snap, state, r.actor, r.item).value;
    var emptied := state[h := Removed(state[h], r.item)];
    if r.container == h {
      RemovedKeepsSpace(state[h], r.item);
    }
    InsertedHolds(emptied[r.container], r.item);
  }

  /**
   * An accepted take moves the item from the named container into a hand
   * of the actor with room: the container's slot is emptied, the item is
   * inserted into the hand, and no other container changes.
   */
  lemma TakeAccepted(snap: Snapshot, state: map<Entity, Slots>, r: TakeRequest)
    requires TakeStep(snap, state, r).1 != []
    ensures r.item in snap.items && snap.items[r.item].hasCollider && snap.items[r.item].hasGravity
    ensures r.container in state && Holds(state[r.container], r.item)
    ensures Reachable(snap, r.actor, r.container)
    ensures var h := HandWithSpace(snap, state, r.actor);
      h.Some? && h.value in snap.children[r.actor] && HandWithSpaceAt(snap, state, h.value)
    ensures var h := HandWithSpace(snap, state, r.actor).value;
      var emptied := state[r.container := Removed(state[r.container], r.item)];
      TakeStep(snap, state, r) == (emptied[h := Inserted(emptied[h], r.item)], [Taken(r.item, h)], [ShowInHand(r.item, h)])
    ensures var h := HandWithSpace(snap, state, r.actor).value;
      h in TakeStep(snap, state, r).0 && Holds(TakeStep(snap, state, r).0[h], r.item)
    ensures var h := HandWithSpace(snap, state, r.actor).value;
      r.container != h ==> TakeStep(snap, state, r).0[r.container] == Removed(state[r.container], r.item)
  {
    HandWithSpaceSound(snap, state, r.actor);
    var h := HandWithSpace(snap, state, r.actor).value;
    var emptied := state[r.container := Removed(state[r.container], r.item)];
    if r.container == h {
      RemovedKeepsSpace(state[h], r.item);
    }
    InsertedHolds(emptied[h], r.item);
  }

  /** A rejected request changes no container and issues no command. */
  lemma RejectedChangesNothing(snap: Snapshot, state: map<Entity, Slots>,
                               p: PickupRequest, d: DropRequest, s: StoreRequest, t: TakeRequest)
    ensures PickupStep(snap, state, p).1 == [] ==> PickupStep(snap, state, p) == (state, [], [])
    ensures DropStep(snap, state, d).1 == [] ==> DropStep(snap, state, d) == (state, [], [])
    ensures StoreStep(snap, state, s).1 == [] ==> StoreStep(snap, state, s) == (state, [], [])
    ensures TakeStep(snap, state, t).1 == [] ==> TakeStep(snap, state, t) == (state, [], [])
  {
  }

  // Component state across frames.

  /** A single command is applied to its own item only. */
  lemma NextItemsOne(items: map<Entity, ItemInfo>, c: ItemCommand)
    requires c.item in items
    ensures NextItems(items, [c]) == items[c.item := AfterCommand(items[c.item], c)]
  {
    assert [c][..0] == [];
  }

  /**
   * An accepted pickup leaves the item stashed, parented and without its
   * physics components once its commands have run, so no pickup of it is
   * accepted in a later frame and a drop finds it stashed.
   */
  lemma PickedUpIsHeldNextFrame(snap: Snapshot, state: map<Entity, Slots>, r: PickupRequest,
                                next: Snapshot, later: map<Entity, Slots>, again: PickupRequest)
    requires PickupStep(snap, state, r).1 != []
    requires next.items == NextItems(snap.items, PickupStep(snap, state, r).2)
    requires again.item == r.item
    ensures r.item in next.items && next.items[r.item] == ItemInfo(false, false, true, true)
    ensures PickupStep(next, later, again).1 == []
  {
    PickupAccepted(snap, state, r);
    NextItemsOne(snap.items, PickupStep(snap, state, r).2[0]);
  }

  /**
   * An accepted drop gives the item back its collider and gravity and
   * clears the stash and the parent once its commands have run, so it
   * passes a pickup's component checks again.
   */
  lemma DroppedIsFreeNextFrame(snap: Snapshot, state: map<Entity, Slots>, r: DropRequest, next: Snapshot)
    requires DropStep(snap, state, r).1 != []
    requires next.items == NextItems(snap.items, DropStep(snap, state, r).2)
    ensures r.item in next.items && next.items[r.item] == ItemInfo(true, true, false, false)
  {
    DropAccepted(snap, state, r);
    NextItemsOne(snap.items, DropStep(snap, state, r).2[0]);
  }

  /**
   * A pickup strips the collider and gravity and a store does not restore
   * them, while a take requires both: an item picked up in one frame and
   * stored in the next is refused by every take after that.
   */
  lemma StoredItemCannotBeTaken(snap0: Snapshot, state0: map<Entity, Slots>, p: PickupRequest,
                                snap1: Snapshot, state1: map<Entity, Slots>, s: StoreRequest,
                                snap2: Snapshot, state2: map<Entity, Slots>, t: TakeRequest)
    requires PickupStep(snap0, state0, p).1 != []
    requires snap1.items == NextItems(snap0.items, PickupStep(snap0, state0, p).2)
    requires s.item == p.item && StoreStep(snap1, state1, s).1 != []
    requires snap2.items == NextItems(snap1.items, StoreStep(snap1, state1, s).2)
    requires t.item == p.item
    ensures p.item in snap2.items && snap2.items[p.item] == ItemInfo(false, false, true, false)
    ensures TakeStep(snap2, state2, t).1 == []
  {
    PickupAccepted(snap0, state0, p);
    NextItemsOne(snap0.items, HoldInHand(p.item, HandWithSpace(snap0, state0, p.actor).value));
    StoreAccepted(snap1, state1, s);
    NextItemsOne(snap1.items, HideInContainer(s.item));
  }

  /** The item can be held: it has its own physics to stash, or they are already stashed. */
  predicate Holdable(info: ItemInfo) {
    (info.hasCollider && info.hasGravity) || info.stashed
  }

  /** The take rule with its physics check also accepting an item whose physics are already stashed. */
  function StashAwareTakeStep(snap: Snapshot, state: map<Entity, Slots>, r: TakeRequest): Effect {
    if r.item !in snap.items then (state, [], [])
    else if r.container !in state || !Holds(state[r.container], r.item) then (state, [], [])
    else match HandWithSpace(snap, state, r.actor)
      case None => (state, [], [])
      case Some(h) =>
        if !Reachable(snap, r.actor, r.container) then (state, [], [])
        else if !Holdable(snap.items[r.item]) then (state, [], [])
        else
          var emptied := state[r.container := Removed(state[r.container], r.item)];
          (emptied[h := Inserted(emptied[h], r.item)], [Taken(r.item, h)], [ShowInHand(r.item, h)])
  }

  /** The corrected take differs from the take as written only for an item without its own physics. */
  lemma StashAwareTakeAgrees(snap: Snapshot, state: map<Entity, Slots>, r: TakeRequest)
    requires r.item in snap.items && snap.items[r.item].hasCollider && snap.items[r.item].hasGravity
    ensures StashAwareTakeStep(snap, state, r) == TakeStep(snap, state, r)
  {
  }

  /**
   * With the corrected take, an item picked up and then stored can be
   * taken back: the take is accepted exactly when the item is in the
   * named container, the actor has a hand with room and the container is
   * in reach, and it leaves the item held in that hand.
   */
  lemma StoredItemCanBeTaken(snap0: Snapshot, state0: map<Entity, Slots>, p: PickupRequest,
                             snap1: Snapshot, state1: map<Entity, Slots>, s: StoreRequest,
                             snap2: Snapshot, state2: map<Entity, Slots>, t: TakeRequest)
    requires PickupStep(snap0, state0, p).1 != []
    requires snap1.items == NextItems(snap0.items, PickupStep(snap0, state0, p).2)
    requires s.item == p.item && StoreStep(snap1, state1, s).1 != []
    requires snap2.items == NextItems(snap1.items, StoreStep(snap1, state1, s).2)
    requires t.item == p.item
    ensures StashAwareTakeStep(snap2, state2, t).1 != [] <==>
      (t.container in state2 && Holds(state2[t.container], t.item)
       && HandWithSpace(snap2, state2, t.actor).Some? && Reachable(snap2, t.actor, t.container))
    ensures StashAwareTakeStep(snap2, state2, t).1 != [] ==>
      var h := HandWithSpace(snap2, state2, t.actor).value;
      Holds(StashAwareTakeStep(snap2, state2, t).0[h], t.item)
  {
    StoredItemCannotBeTaken(snap0, state0, p, snap1, state1, s, snap2, state2, t);
    if StashAwareTakeStep(snap2, state2, t).1 != [] {
      HandWithSpaceSound(snap2, state2, t.actor);
      var h := HandWithSpace(snap2, state2, t.actor).value;
      if t.container == h {
        RemovedKeepsSpace(state2[h], t.item);
      }
      InsertedHolds(state2[t.container := Removed(state2[t.container], t.item)][h], t.item);
    }
  }

  /** A batch of pickups only ever updates existing containers, with at most one event per request. */
  lemma {:induction false} HandleKeepsContainers(snap: Snapshot, state: map<Entity, Slots>, rs: seq<PickupRequest>)
    ensures PickupAll(snap, state, rs).0.Keys == state.Keys
    ensures |PickupAll(snap, state, rs).1| <= |rs|
    decreases |rs|
  {
    if |rs| > 0 {
      HandleKeepsContainers(snap, state, rs[..|rs| - 1]);
      HandWithSpaceSound(snap, PickupAll(snap, state, rs[..|rs| - 1]).0, rs[|rs| - 1].actor);
    }
  }

  /** Some container already holds `e`. */
  predicate HeldAnywhere(state: map<Entity, Slots>, e: Entity) {
    exists c :: c in state && Holds(state[c], e)
  }

  /** Every item occupies at most one slot across all containers. */
  predicate HeldOnce(state: map<Entity, Slots>) {
    forall a, b, i, j ::
      (a in state && b in state && 0 <= i < |state[a]| && 0 <= j < |state[b]|
       && state[a][i].Some? && state[a][i] == state[b][j]) ==> a == b && i == j
  }

  /** An actor 1 with two empty one-slot hands 2 and 3, next to a free item 10. */
  const TwoHands: Snapshot := Snapshot(
    map[10 := ItemInfo(true, true, false, false)],
    map[1 := [2, 3]],
    {2, 3},
    map[1 := ZERO, 10 := ZERO],
    DEFAULT_INTERACTION_RANGE)
  const BothEmpty: map<Entity, Slots> := map[2 := [None], 3 := [None]]
  const FirstFilled: map<Entity, Slots> := map[2 := [Some(10)], 3 := [None]]
  const BothFilled: map<Entity, Slots> := map[2 := [Some(10)], 3 := [Some(10)]]

  lemma FirstPickupOfTwo()
    ensures PickupStep(TwoHands, BothEmpty, PickupRequest(1, 10)) == (FirstFilled, [PickedUp(10, 2)], [HoldInHand(10, 2)])
  {
    assert Reachable(TwoHands, 1, 10);
    assert HandWithSpaceAt(TwoHands, BothEmpty, 2) by {
      assert BothEmpty[2][0].None?;
    }
    assert HandWithSpace(TwoHands, BothEmpty, 1) == Some(2);
    assert FirstFreeFrom([None], 0) == Some(0);
    assert Inserted([None], 10) == [Some(10)];
    assert BothEmpty[2 := [Some(10)]] == FirstFilled;
  }

  lemma SecondPickupOfTwo()
    ensures PickupStep(TwoHands, FirstFilled, PickupRequest(1, 10)) == (BothFilled, [PickedUp(10, 3)], [HoldInHand(10, 3)])
  {
    assert Reachable(TwoHands, 1, 10);
    assert FirstFreeFrom([Some(10)], 0) == None;
    assert !HandWithSpaceAt(TwoHands, FirstFilled, 2);
    assert HandWithSpaceAt(TwoHands, FirstFilled, 3) by {
      assert FirstFilled[3][0].None?;
    }
    assert TwoHands.children[1] == [2, 3] && [2, 3][1..] == [3];
    assert FirstHandWithSpace(TwoHands, FirstFilled, [3]) == Some(3);
    assert HandWithSpace(TwoHands, FirstFilled, 1) == Some(3);
    assert FirstFreeFrom([None], 0) == Some(0);
    assert Inserted([None], 10) == [Some(10)];
    assert FirstFilled[3 := [Some(10)]] == BothFilled;
  }

  /**
   * Because the "held" marker is only added after the frame, a second
   * pickup of the same item in the same frame is validated against the
   * old components and, when the actor has a second free hand, succeeds
   * too: the item ends up in both hands, although every item started in
   * at most one slot.
   */
  lemma SameFramePickupsSeeOldComponents()
    ensures HeldOnce(BothEmpty)
    ensures !HeldOnce(BothFilled)
    ensures var r := PickupRequest(1, 10);
      PickupAll(TwoHands, BothEmpty, [r, r])
        == (BothFilled, [PickedUp(10, 2), PickedUp(10, 3)], [HoldInHand(10, 2), HoldInHand(10, 3)])
  {
    var r := PickupRequest(1, 10);
    FirstPickupOfTwo();
    SecondPickupOfTwo();
    var rr := [r, r];
    assert rr[..1] == [r] && [r][..0] == [];
    assert PickupAll(TwoHands, BothEmpty, []) == (BothEmpty, [], []);
    assert [] + [PickedUp(10, 2)] == [PickedUp(10, 2)] && [] + [HoldInHand(10, 2)] == [HoldInHand(10, 2)];
    assert PickupAll(TwoHands, BothEmpty, [r]) == (FirstFilled, [PickedUp(10, 2)], [HoldInHand(10, 2)]);
    assert PickupAll(TwoHands, BothEmpty, rr)
        == (BothFilled, [PickedUp(10, 2)] + [PickedUp(10, 3)], [HoldInHand(10, 2)] + [HoldInHand(10, 3)]);
    assert [PickedUp(10, 2)] + [PickedUp(10, 3)] == [PickedUp(10, 2), PickedUp(10, 3)];
    assert [HoldInHand(10, 2)] + [HoldInHand(10, 3)] == [HoldInHand(10, 2), HoldInHand(10, 3)];
    assert BothFilled[2][0] == BothFilled[3][0];
  }

  /**
   * The pickup rule with its "not already held" check also made against
   * the containers as updated earlier in the frame.
   */
  function GuardedPickupStep(snap: Snapshot, state: map<Entity, Slots>, r: PickupRequest): Effect {
    if HeldAnywhere(state, r.item) then (state, [], []) else PickupStep(snap, state, r)
  }

  function GuardedPickupAll(snap: Snapshot, state: map<Entity, Slots>, rs: seq<PickupRequest>): Effect {
    if |rs| == 0 then (state, [], [])
    else
      var before := GuardedPickupAll(snap, state, rs[..|rs| - 1]);
      var step := GuardedPickupStep(snap, before.0, rs[|rs| - 1]);
      (step.0, before.1 + step.1, before.2 + step.2)
  }

  /** A guarded pickup never puts an item into a second slot. */
  lemma GuardedPickupKeepsHeldOnce(snap: Snapshot, state: map<Entity, Slots>, r: PickupRequest)
    requires HeldOnce(state)
    ensures HeldOnce(GuardedPickupStep(snap, state, r).0)
    ensures GuardedPickupStep(snap, state, r).1 != [] ==>
      !HeldAnywhere(state, r.item) && GuardedPickupStep(snap, state, r) == PickupStep(snap, state, r)
  {
    var step := GuardedPickupStep(snap, state, r);
    if step.1 != [] {
      HandWithSpaceSound(snap, state, r.actor);
      var h := HandWithSpace(snap, state, r.actor).value;
      var f := FirstFreeFrom(state[h], 0).value;
      var t: map<Entity, Slots> := step.0;
      assert t == state[h := state[h][f := Some(r.item)]];
      forall a: Entity, i: int | a in t && 0 <= i < |t[a]| && !(a == h && i == f)
        ensures a in state && i < |state[a]| && t[a][i] == state[a][i] && t[a][i] != Some(r.item)
      {
        assert !Holds(state[a], r.item);
      }
    }
  }

  /** With the guard, a frame of pickups keeps every item in at most one slot. */
  lemma {:induction false} GuardedPickupsKeepHeldOnce(snap: Snapshot, state: map<Entity, Slots>, rs: seq<PickupRequest>)
    requires HeldOnce(state)
    ensures HeldOnce(GuardedPickupAll(snap, state, rs).0)
    decreases |rs|
  {
    if |rs| > 0 {
      GuardedPickupsKeepHeldOnce(snap, state, rs[..|rs| - 1]);
      GuardedPickupKeepsHeldOnce(snap, GuardedPickupAll(snap, state, rs[..|rs| - 1]).0, rs[|rs| - 1]);
    }
  }

  // ---------------------------------------------------------------------
  // The system
  // ---------------------------------------------------------------------

  /** The first child of `actor` that is a hand slot whose container has space. */
  method FindHandSlotWithSpace(snap: Snapshot, cs: map<Entity, Container>, actor: Entity) returns (r: Option<Entity>)
    ensures r == HandWithSpace(snap, Contents(cs), actor)
  {
    if actor !in snap.children {
      return None;
    }
    var kids := snap.children[actor];
    var i := 0;
    while i < |kids|
      invariant 0 <= i <= |kids|
      invariant FirstHandWithSpace(snap, Contents(cs), kids[i..]) == FirstHandWithSpace(snap, Contents(cs), kids)
    {
      var c := kids[i];
      assert kids[i..][1..] == kids[i + 1..];
      if c in snap.hands && c in cs && cs[c].HasSpace() {
        return Some(c);
      }
      i := i + 1;
    }
    return None;
  }

  /** The first child of `actor` that is a hand slot whose container holds `item`. */
  method FindHandSlotContaining(snap: Snapshot, cs: map<Entity, Container>, actor: Entity, item: Entity)
    returns (r: Option<Entity>)
    ensures r == HandHolding(snap, Contents(cs), actor, item)
  {
    if actor !in snap.children {
      return None;
    }
    var kids := snap.children[actor];
    var i := 0;
    while i < |kids|
      invariant 0 <= i <= |kids|
      invariant FirstHandHolding(snap, Contents(cs), kids[i..], item) == FirstHandHolding(snap, Contents(cs), kids, item)
    {
      var c := kids[i];
      assert kids[i..][1..] == kids[i + 1..];
      if c in snap.hands && c in cs && cs[c].Contains(item) {
        return Some(c);
      }
      i := i + 1;
    }
    return None;
  }

  method InsertInto(cs: map<Entity, Container>, c: Entity, item: Entity)
    requires c in cs && Separate(cs)
    modifies cs[c].slots
    ensures Contents(cs) == old(Contents(cs))[c := Inserted(old(Contents(cs))[c], item)]
  {
    var _ := cs[c].Insert(item);
  }

  method RemoveFrom(cs: map<Entity, Container>, c: Entity, item: Entity)
    requires c in cs && Separate(cs)
    modifies cs[c].slots
    ensures Contents(cs) == old(Contents(cs))[c := Removed(old(Contents(cs))[c], item)]
  {
    var _ := cs[c].Remove(item);
  }

  method ApplyPickup(snap: Snapshot, cs: map<Entity, Container>, r: PickupRequest)
    returns (evs: seq<ItemActionEvent>, cmds: seq<ItemCommand>)
    requires Separate(cs)
    modifies Footprint(cs)
    ensures (Contents(cs), evs, cmds) == PickupStep(snap, old(Contents(cs)), r)
  {
    if r.item !in snap.items {
      return [], [];
    }
    var info := snap.items[r.item];
    if info.stashed || info.parented {
      return [], [];
    }
    if !info.hasCollider || !info.hasGravity {
      return [], [];
    }
    if !Reachable(snap, r.actor, r.item) {
      return [], [];
    }
    var hand := FindHandSlotWithSpace(snap, cs, r.actor);
    if hand.None? {
      return [], [];
    }
    HandWithSpaceSound(snap, Contents(cs), r.actor);
    InsertInto(cs, hand.value, r.item);
    evs, cmds := [PickedUp(r.item, hand.value)], [HoldInHand(r.item, hand.value)];
  }

  method ApplyDrop(snap: Snapshot, cs: map<Entity, Container>, r: DropRequest)
    returns (evs: seq<ItemActionEvent>, cmds: seq<ItemCommand>)
    requires Separate(cs)
    modifies Footprint(cs)
    ensures (Contents(cs), evs, cmds) == DropStep(snap, old(Contents(cs)), r)
  {
    if r.item !in snap.items || !snap.items[r.item].stashed {
      return [], [];
    }
    if r.actor !in snap.positions || !InRange(snap.positions[r.actor], r.dropPosition, snap.range) {
      return [], [];
    }
    var hand := FindHandSlotContaining(snap, cs, r.actor, r.item);
    if hand.None? {
      return [], [];
    }
    HandHoldingSound(snap, Contents(cs), r.actor, r.item);
    RemoveFrom(cs, hand.value, r.item);
    evs, cmds := [Dropped(r.item, r.dropPosition)], [PlaceInWorld(r.item, r.dropPosition)];
  }

  method ApplyStore(snap: Snapshot, cs: map<Entity, Container>, r: StoreRequest)
    returns (evs: seq<ItemActionEvent>, cmds: seq<ItemCommand>)
    requires Separate(cs)
    modifies Footprint(cs)
    ensures (Contents(cs), evs, cmds) == StoreStep(snap, old(Contents(cs)), r)
  {
    if r.item !in snap.items {
      return [], [];
    }
    var hand := FindHandSlotContaining(snap, cs, r.actor, r.item);
    if hand.None? {
      return [], [];
    }
    if !Reachable(snap, r.actor, r.container) {
      return [], [];
    }
    if r.container !in cs || !cs[r.container].HasSpace() {
      return [], [];
    }
    HandHoldingSound(snap, Contents(cs), r.actor, r.item);
    RemoveFrom(cs, hand.value, r.item);
    InsertInto(cs, r.container, r.item);
    evs, cmds := [Stored(r.item, r.container)], [HideInContainer(r.item)];
  }

  method ApplyTake(snap: Snapshot, cs: map<Entity, Container>, r: TakeRequest)
    returns (evs: seq<ItemActionEvent>, cmds: seq<ItemCommand>)
    requires Separate(cs)
    modifies Footprint(cs)
    ensures (Contents(cs), evs, cmds) == TakeStep(snap, old(Contents(cs)), r)
  {
    if r.item !in snap.items {
      return [], [];
    }
    if r.container !in cs || !cs[r.container].Contains(r.item) {
      return [], [];
    }
    var hand := FindHandSlotWithSpace(snap, cs, r.actor);
    if hand.None? {
      return [], [];
    }
    if !Reachable(snap, r.actor, r.container) {
      return [], [];
    }
    if !snap.items[r.item].hasCollider || !snap.items[r.item].hasGravity {
      return [], [];
    }
    HandWithSpaceSound(snap, Contents(cs), r.actor);
    RemoveFrom(cs, r.container, r.item);
    InsertInto(cs, hand.value, r.item);
    evs, cmds := [Taken(r.item, hand.value)], [ShowInHand(r.item, hand.value)];
  }

  /**
   * One frame of `handle_item_interaction`: the four request kinds in
   * order, each request checked against `snap` and the containers as
   * earlier requests left them.  The component commands are returned in
   * the order they were issued.
   */
  method HandleItemInteraction(snap: Snapshot, cs: map<Entity, Container>, pickups: seq<PickupRequest>,
                               drops: seq<DropRequest>, stores: seq<StoreRequest>, takes: seq<TakeRequest>)
    returns (events: seq<ItemActionEvent>, commands: seq<ItemCommand>)
    requires Separate(cs)
    modifies Footprint(cs)
    ensures (Contents(cs), events, commands) == HandleAll(snap, old(Contents(cs)), pickups, drops, stores, takes)
  {
    ghost var s0 := Contents(cs);
    events, commands := [], [];
    for k := 0 to |pickups|
      invariant (Contents(cs), events, commands) == PickupAll(snap, s0, pickups[..k])
    {
      assert pickups[..k + 1][..k] == pickups[..k];
      var evs, cmds := ApplyPickup(snap, cs, pickups[k]);
      events, commands := events + evs, commands + cmds;
    }
    assert pickups[..|pickups|] == pickups;
    ghost var p := PickupAll(snap, s0, pickups);
    var e1, c1 := events, commands;
    events, commands := [], [];
    for k := 0 to |drops|
      invariant (Contents(cs), events, commands) == DropAll(snap, p.0, drops[..k])
    {
      assert drops[..k + 1][..k] == drops[..k];
      var evs, cmds := ApplyDrop(snap, cs, drops[k]);
      events, commands := events + evs, commands + cmds;
    }
    assert drops[..|drops|] == drops;
    ghost var d := DropAll(snap, p.0, drops);
    var e2, c2 := events, commands;
    events, commands := [], [];
    for k := 0 to |stores|
      invariant (Contents(cs), events, commands) == StoreAll(snap, d.0, stores[..k])
    {
      assert stores[..k + 1][..k] == stores[..k];
      var evs, cmds := ApplyStore(snap, cs, stores[k]);
      events, commands := events + evs, commands + cmds;
    }
    assert stores[..|stores|] == stores;
    ghost var s := StoreAll(snap, d.0, stores);
    var e3, c3 := events, commands;
    events, commands := [], [];
    for k := 0 to |takes|
      invariant (Contents(cs), events, commands) == TakeAll(snap, s.0, takes[..k])
    {
      assert takes[..k + 1][..k] == takes[..k];
      var evs, cmds := ApplyTake(snap, cs, takes[k]);
      events, commands := events + evs, commands + cmds;
    }
    assert takes[..|takes|] == takes;
    events, commands := e1 + e2 + e3 + events, c1 + c2 + c3 + commands;
  }
}
