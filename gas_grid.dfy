/**
 * The atmospherics grid: per-cell mole counts plus a passability mask
 * derived from the tile map.  Pressure is moles times a unit constant.
 * Diffusion is not implemented yet, so a simulation step changes nothing.
 */
module GasGrid {
  import opened Wrappers
  import opened Tiles

  /** Pressure per mole at the fixed temperature and unit cell volume. */
  const PRESSURE_CONSTANT: real := 1.0

  /** Left-to-right sum of a sequence, as `Iterator::sum` computes it. */
  function Sum(s: seq<real>): real
  {
    if |s| == 0 then 0.0 else Sum(s[..|s| - 1]) + s[|s| - 1]
  }

  /** Replacing one element moves the sum by exactly the difference. */
  lemma {:induction false} SumUpdate(s: seq<real>, i: nat, v: real)
    requires i < |s|
    ensures Sum(s[i := v]) == Sum(s) - s[i] + v
    decreases |s|
  {
    var t := s[i := v];
    if i < |s| - 1 {
      assert t[..|t| - 1] == s[..|s| - 1][i := v];
      SumUpdate(s[..|s| - 1], i, v);
    } else {
      assert t[..|t| - 1] == s[..|s| - 1];
    }
  }

  /** A sum of non-negative amounts is non-negative. */
  lemma {:induction false} SumNonNegative(s: seq<real>)
    ensures (forall i :: 0 <= i < |s| ==> s[i] >= 0.0) ==> Sum(s) >= 0.0
    decreases |s|
  {
    if |s| > 0 {
      SumNonNegative(s[..|s| - 1]);
    }
  }

  lemma {:induction false} SumZeros(n: nat)
    ensures Sum(seq(n, _ => 0.0)) == 0.0
  {
    if n > 0 {
      assert seq(n, _ => 0.0)[..n - 1] == seq(n - 1, _ => 0.0);
      SumZeros(n - 1);
    }
  }

  /** Whether the tile map allows gas through `p`: floor does, walls and off-map cells do not. */
  ghost predicate FloorAt(tm: Tilemap, p: Pos)
    reads tm
    requires tm.Valid()
  {
    tm.Get(p) == Some(Floor)
  }

  class GasGrid {
    const width: nat
    const height: nat
    var moles: seq<real>
    var passable: seq<bool>

    ghost predicate Valid()
      reads this
    {
      width * height < CELL_LIMIT && |moles| == width * height && |passable| == width * height
    }

    /** Every cell empty and passable. */
    constructor (w: nat, h: nat)
      requires w <= U32_MAX && h <= U32_MAX && w * h < CELL_LIMIT
      ensures Valid() && width == w && height == h
      ensures forall i :: 0 <= i < w * h ==> moles[i] == 0.0 && passable[i]
      ensures TotalMoles() == 0.0
    {
      width, height := w, h;
      moles := seq(w * h, _ => 0.0);
      passable := seq(w * h, _ => true);
      SumZeros(w * h);
    }

    /** Recomputes the mask from the tile map, row by row; mole counts stay as they are. */
    method SyncWalls(tm: Tilemap)
      requires Valid() && tm.Valid()
      modifies this
      ensures Valid()
      ensures moles == old(moles)
      ensures forall p :: InBounds(width, height, p) ==>
        passable[CoordToIndex(width, height, p).value] == FloorAt(tm, p)
    {
      for y := 0 to height
        invariant Valid() && moles == old(moles)
        invariant forall p :: InBounds(width, height, p) && p.y < y ==>
          passable[CoordToIndex(width, height, p).value] == FloorAt(tm, p)
      {
        for x := 0 to width
          invariant Valid() && moles == old(moles)
          invariant forall p :: InBounds(width, height, p) && (p.y < y || (p.y == y && p.x < x)) ==>
            passable[CoordToIndex(width, height, p).value] == FloorAt(tm, p)
        {
          var pos := Pos(x, y);
          var idx := CoordToIndex(width, height, pos);
          if idx.Some? {
            var kind := tm.Get(pos);
            ghost var before := passable;
            if kind.Some? {
              passable := passable[idx.value := kind.value == Floor];
            } else {
              passable := passable[idx.value := false];
            }
            forall p | InBounds(width, height, p) && p != pos
              ensures passable[CoordToIndex(width, height, p).value]
                   == before[CoordToIndex(width, height, p).value]
            {
              if CoordToIndex(width, height, p) == idx {
                CoordToIndexInjective(width, height, p, pos);
              }
            }
          }
        }
      }
    }

    /** The pressure of an in-bounds cell, which with the unit constant equals its moles. */
    function PressureAt(p: Pos): (r: Option<real>)
      reads this
      requires Valid()
      ensures r.Some? <==> InBounds(width, height, p)
      ensures r.Some? ==> r.value == moles[CoordToIndex(width, height, p).value]
    {
      match CoordToIndex(width, height, p)
      case None => None
      case Some(i) => Some(moles[i] * PRESSURE_CONSTANT)
    }

    /** Sets one cell's moles; false and no change when `p` is outside the grid. */
    method SetMoles(p: Pos, m: real) returns (ok: bool)
      requires Valid()
      modifies this
      ensures Valid() && passable == old(passable)
      ensures ok <==> InBounds(width, height, p)
      ensures ok ==> moles == old(moles)[CoordToIndex(width, height, p).value := m]
      ensures !ok ==> moles == old(moles)
      ensures ok ==> PressureAt(p) == Some(m)
      ensures ok ==> TotalMoles() == old(TotalMoles()) - old(PressureAt(p)).value + m
      ensures !ok ==> TotalMoles() == old(TotalMoles())
    {
      var idx := CoordToIndex(width, height, p);
      if idx.Some? {
        SumUpdate(moles, idx.value, m);
        moles := moles[idx.value := m];
        ok := true;
      } else {
        ok := false;
      }
    }

    /** The moles of every cell, passable or not, added up; never negative when no cell is. */
    function TotalMoles(): (r: real)
      reads this
      ensures (forall i :: 0 <= i < |moles| ==> moles[i] >= 0.0) ==> r >= 0.0
    {
      SumNonNegative(moles);
      Sum(moles)
    }

    /** One simulation step: diffusion is a stub, so nothing changes and mass is conserved. */
    method Step(dt: real)
      requires Valid()
      modifies this
      ensures moles == old(moles) && passable == old(passable)
      ensures TotalMoles() == old(TotalMoles())
    {
    }
  }
}
