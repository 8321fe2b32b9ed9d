/**
 * The client-side replica table shared by the older networking code:
 * replicated entities keyed by a network id (a NetId or a PeerId), with
 * ECS deferred-command semantics.  Queries inside a system see only the
 * rows that existed when the system started; spawns and despawns issued
 * by the system are queued and take effect when the commands are
 * applied, while position writes through a mutable query are immediate.
 */
module Replication {
  import opened Wrappers
  import opened World

  /** The marker components attached to a replica: `PlayerControlled` and `ControlledByClient`. */
  datatype Tags = Tags(playerControlled: bool, controlledBy: Option<nat>)

  const UNCONTROLLED := Tags(false, None)

  /** A replicated entity: its ECS entity, network key, position and marker components. */
  datatype Replica = Replica(entity: Entity, key: nat, position: Vec3, tags: Tags)

  /** The table value: visible rows, queued spawns, queued despawns and the entity allocator. */
  datatype Table = Table(rows: seq<Replica>, spawns: seq<Replica>, despawns: set<Entity>, nextEntity: nat)

  /** Some visible row has network key `key`. */
  predicate Known(rows: seq<Replica>, key: nat) {
    exists i :: 0 <= i < |rows| && rows[i].key == key
  }

  /** The index of the first visible row with key `key`. */
  function FirstWithKey(rows: seq<Replica>, key: nat): (r: Option<nat>)
    ensures r.Some? ==> (r.value < |rows| && rows[r.value].key == key
                         && forall j :: 0 <= j < r.value ==> rows[j].key != key)
    ensures r.None? <==> !Known(rows, key)
  {
    if |rows| == 0 then None
    else if rows[0].key == key then Some(0)
    else match FirstWithKey(rows[1..], key)
      case None =>
        assert forall j :: 1 <= j < |rows| ==> rows[j] == rows[1..][j - 1];
        None
      case Some(i) => Some(i + 1)
  }

  /** Queues the spawn of a new replica, allocating its entity. */
  function QueueSpawn(t: Table, key: nat, position: Vec3, tags: Tags): Table {
    t.(spawns := t.spawns + [Replica(t.nextEntity, key, position, tags)], nextEntity := t.nextEntity + 1)
  }

  /** Queues the despawn of the first visible row with key `key`, if any. */
  function QueueDespawnFirst(t: Table, key: nat): Table {
    match FirstWithKey(t.rows, key)
    case None => t
    case Some(i) => t.(despawns := t.despawns + {t.rows[i].entity})
  }

  /** Moves the first visible row with key `key`, if any. */
  function MoveFirst(t: Table, key: nat, position: Vec3): Table {
    match FirstWithKey(t.rows, key)
    case None => t
    case Some(i) => t.(rows := t.rows[i := t.rows[i].(position := position)])
  }

  /** Applies a state update: each listed key's first row takes the listed position. */
  function MoveAll(t: Table, updates: seq<(nat, Vec3)>): Table {
    if |updates| == 0 then t
    else
      var before := MoveAll(t, updates[..|updates| - 1]);
      MoveFirst(before, updates[|updates| - 1].0, updates[|updates| - 1].1)
  }

  /** `rows` without the rows whose entity is in `dead`, in the same order. */
  function Without(rows: seq<Replica>, dead: set<Entity>): (r: seq<Replica>)
    ensures forall x :: x in r <==> x in rows && x.entity !in dead
  {
    if |rows| == 0 then []
    else
      var rest := Without(rows[..|rows| - 1], dead);
      var last := rows[|rows| - 1];
      assert rows == rows[..|rows| - 1] + [last];
      if last.entity in dead then rest else rest + [last]
  }

  /** Applies the queued commands: despawned rows go, spawned rows are appended. */
  function Flush(t: Table): (r: Table)
    ensures r.spawns == [] && r.despawns == {} && r.nextEntity == t.nextEntity
    ensures forall x :: x in r.rows <==> (x in t.rows && x.entity !in t.despawns) || x in t.spawns
  {
    Table(Without(t.rows, t.despawns) + t.spawns, [], {}, t.nextEntity)
  }

  /** Two row sequences hold the same replicas in the same order, positions aside. */
  predicate SameRows(a: seq<Replica>, b: seq<Replica>) {
    |a| == |b| && forall i :: 0 <= i < |a| ==>
      a[i].entity == b[i].entity && a[i].key == b[i].key && a[i].tags == b[i].tags
  }

  lemma KnownSameRows(a: seq<Replica>, b: seq<Replica>, key: nat)
    requires SameRows(a, b)
    ensures Known(a, key) <==> Known(b, key)
  {
    if Known(a, key) {
      var i :| 0 <= i < |a| && a[i].key == key;
      assert b[i].key == key;
    }
    if Known(b, key) {
      var i :| 0 <= i < |b| && b[i].key == key;
      assert a[i].key == key;
    }
  }

  /** A state update changes positions only: the same rows, entities and keys, in the same order. */
  lemma {:induction false} MoveAllKeepsRows(t: Table, updates: seq<(nat, Vec3)>)
    ensures var r := MoveAll(t, updates);
      |r.rows| == |t.rows| && r.spawns == t.spawns && r.despawns == t.despawns && r.nextEntity == t.nextEntity
      && forall i :: 0 <= i < |t.rows| ==>
        r.rows[i].entity == t.rows[i].entity && r.rows[i].key == t.rows[i].key && r.rows[i].tags == t.rows[i].tags
  {
    if |updates| > 0 {
      MoveAllKeepsRows(t, updates[..|updates| - 1]);
    }
  }

  /** A row whose key no update names keeps its position. */
  lemma {:induction false} MoveAllOnlyListed(t: Table, updates: seq<(nat, Vec3)>, i: nat)
    requires i < |t.rows|
    requires forall k :: 0 <= k < |updates| ==> updates[k].0 != t.rows[i].key
    ensures |MoveAll(t, updates).rows| == |t.rows|
    ensures MoveAll(t, updates).rows[i] == t.rows[i]
  {
    MoveAllKeepsRows(t, updates);
    if |updates| > 0 {
      MoveAllOnlyListed(t, updates[..|updates| - 1], i);
    }
  }

  /** After a despawn request only the first row with that key is gone; the others stay. */
  lemma DespawnOnlyFirst(t: Table, key: nat, i: nat)
    requires t.despawns == {} && t.spawns == []
    requires forall a, b :: 0 <= a < b < |t.rows| ==> t.rows[a].entity != t.rows[b].entity
    requires i < |t.rows|
    ensures t.rows[i] in Flush(QueueDespawnFirst(t, key)).rows <==> FirstWithKey(t.rows, key) != Some(i)
  {
  }

  /** No two replicas share a network key. */
  predicate KeysDistinct(rs: seq<Replica>) {
    forall i, j :: 0 <= i < j < |rs| ==> rs[i].key != rs[j].key
  }

  /** Removing one replica keeps the keys distinct. */
  lemma DropKeepsDistinct(a: seq<Replica>, x: Replica, b: seq<Replica>)
    requires KeysDistinct(a + [x] + b)
    ensures KeysDistinct(a + b)
  {
    var s := a + [x] + b;
    forall i, j | 0 <= i < j < |a + b|
      ensures (a + b)[i].key != (a + b)[j].key
    {
      var i' := if i < |a| then i else i + 1;
      var j' := if j < |a| then j else j + 1;
      assert (a + b)[i] == s[i'] && (a + b)[j] == s[j'];
    }
  }

  lemma {:induction false} WithoutKeepsDistinct(rows: seq<Replica>, dead: set<Entity>, sp: seq<Replica>)
    requires KeysDistinct(rows + sp)
    ensures KeysDistinct(Without(rows, dead) + sp)
  {
    if |rows| > 0 {
      var pre := rows[..|rows| - 1];
      var last := rows[|rows| - 1];
      assert rows == pre + [last];
      assert rows + sp == pre + ([last] + sp);
      WithoutKeepsDistinct(pre, dead, [last] + sp);
      var w := Without(pre, dead);
      assert w + [last] + sp == w + ([last] + sp);
      if last.entity in dead {
        DropKeepsDistinct(w, last, sp);
      }
    }
  }

  /** Applying the commands keeps distinct keys distinct: a flush only drops rows and appends the spawns. */
  lemma FlushKeepsKeysDistinct(t: Table)
    requires KeysDistinct(t.rows + t.spawns)
    ensures KeysDistinct(Flush(t).rows)
  {
    WithoutKeepsDistinct(t.rows, t.despawns, t.spawns);
  }

  /** Spawning a key that is neither visible nor already queued keeps the keys distinct. */
  lemma SpawnFreshKeepsDistinct(t: Table, key: nat, position: Vec3, tags: Tags)
    requires KeysDistinct(t.rows + t.spawns)
    requires !Known(t.rows, key) && !Known(t.spawns, key)
    ensures var u := QueueSpawn(t, key, position, tags); KeysDistinct(u.rows + u.spawns)
  {
    var u := QueueSpawn(t, key, position, tags);
    var all := t.rows + t.spawns;
    assert u.rows + u.spawns == all + [Replica(t.nextEntity, key, position, tags)];
    forall i | 0 <= i < |all|
      ensures all[i].key != key
    {
      if i < |t.rows| {
        assert all[i] == t.rows[i];
      } else {
        assert all[i] == t.spawns[i - |t.rows|];
      }
    }
  }

  /**
   * The class form of the table: the visible rows, the command queue and
   * the entity allocator, changed in place by the message handlers.
   */
  class ReplicaWorld {
    var rows: seq<Replica>
    var spawns: seq<Replica>
    var despawns: set<Entity>
    var nextEntity: nat

    function State(): Table
      reads this
    {
      Table(rows, spawns, despawns, nextEntity)
    }

    constructor ()
      ensures State() == Table([], [], {}, 0)
    {
      rows, spawns, despawns, nextEntity := [], [], {}, 0;
    }

    /** `query.iter().any(..)`: whether some visible row has key `key`. */
    method Exists(key: nat) returns (b: bool)
      ensures b <==> Known(rows, key)
    {
      for i := 0 to |rows|
        invariant forall j :: 0 <= j < i ==> rows[j].key != key
      {
        if rows[i].key == key {
          return true;
        }
      }
      return false;
    }

    /** The first-match loop with `break`: the index of the first visible row with key `key`. */
    method Find(key: nat) returns (r: Option<nat>)
      ensures r == FirstWithKey(rows, key)
    {
      for i := 0 to |rows|
        invariant forall j :: 0 <= j < i ==> rows[j].key != key
      {
        if rows[i].key == key {
          return Some(i);
        }
      }
      return None;
    }

    method Spawn(key: nat, position: Vec3, tags: Tags)
      modifies this
      ensures State() == QueueSpawn(old(State()), key, position, tags)
    {
      spawns := spawns + [Replica(nextEntity, key, position, tags)];
      nextEntity := nextEntity + 1;
    }

    method DespawnFirst(key: nat)
      modifies this
      ensures State() == QueueDespawnFirst(old(State()), key)
    {
      var i := Find(key);
      if i.Some? {
        despawns := despawns + {rows[i.value].entity};
      }
    }

    /** A state update: for each listed key, the first row with it is moved. */
    method MoveListed(updates: seq<(nat, Vec3)>)
      modifies this
      ensures State() == MoveAll(old(State()), updates)
    {
      for k := 0 to |updates|
        invariant State() == MoveAll(old(State()), updates[..k])
      {
        assert updates[..k + 1][..k] == updates[..k];
        var i := Find(updates[k].0);
        if i.Some? {
          rows := rows[i.value := rows[i.value].(position := updates[k].1)];
        }
      }
      assert updates[..|updates|] == updates;
    }

    /** Applies the queued commands, as the ECS does after the system ran. */
    method ApplyCommands()
      modifies this
      ensures State() == Flush(old(State()))
    {
      rows := Without(rows, despawns) + spawns;
      spawns, despawns := [], {};
    }
  }
}
