/**
 * The tile grid: a row-major vector of Floor/Wall cells addressed by
 * integer coordinates.  Coordinates outside the grid are rejected, never
 * wrapped.
 */
module Tiles {
  import opened Wrappers

  datatype TileKind = Floor | Wall

  /** Floor can be walked on; walls are the only kind that blocks. */
  function Walkable(k: TileKind): (r: bool)
    ensures r <==> k != Wall
  {
    match k
    case Floor => true
    case Wall => false
  }

  /** A grid coordinate (an `IVec2`). */
  datatype Pos = Pos(x: int, y: int)

  const U32_MAX: int := 0xFFFF_FFFF
  /** Grids with this many cells or more overflow the signed 32-bit index arithmetic. */
  const CELL_LIMIT: int := 0x8000_0000

  predicate InBounds(width: nat, height: nat, p: Pos) {
    0 <= p.x < width && 0 <= p.y < height
  }

  lemma MulLeft(a: int, b: int, c: int)
    requires a <= b && 0 <= c
    ensures a * c <= b * c
  {
  }

  /** Row `y` starts at `y * width`, so any cell of it lies below `height * width`. */
  lemma FlatBound(width: nat, height: nat, x: int, y: int)
    requires 0 <= x < width && 0 <= y < height
    ensures 0 <= y * width + x < width * height
  {
    MulLeft(y + 1, height, width);
  }

  /** Quotient and remainder are unique. */
  lemma DivModUnique(k: int, w: int, q: int, r: int)
    requires 0 < w && 0 <= r < w && k == q * w + r
    ensures k / w == q && k % w == r
  {
    var q', r' := k / w, k % w;
    if q' > q {
      MulLeft(q + 1, q', w);
    } else if q' < q {
      MulLeft(q' + 1, q, w);
    }
  }

  /** The index of an in-bounds coordinate; `None` for every other one. */
  function CoordToIndex(width: nat, height: nat, p: Pos): (r: Option<nat>)
    ensures r.Some? <==> InBounds(width, height, p)
    ensures r.Some? ==> r.value < width * height && r.value == p.y * width + p.x
  {
    if InBounds(width, height, p) then
      FlatBound(width, height, p.x, p.y);
      Some(p.y * width + p.x)
    else None
  }

  /** The coordinate stored at a row-major index. */
  function IndexToCoord(width: nat, i: nat): Pos
    requires width > 0
  {
    Pos(i % width, i / width)
  }

  /** Indexing is a bijection between in-bounds coordinates and `[0, width * height)`. */
  lemma CoordIndexRoundTrip(width: nat, height: nat, p: Pos)
    requires InBounds(width, height, p)
    ensures IndexToCoord(width, CoordToIndex(width, height, p).value) == p
  {
    DivModUnique(p.y * width + p.x, width, p.y, p.x);
  }

  lemma IndexCoordRoundTrip(width: nat, height: nat, i: nat)
    requires i < width * height
    ensures width > 0
    ensures InBounds(width, height, IndexToCoord(width, i))
    ensures CoordToIndex(width, height, IndexToCoord(width, i)) == Some(i)
  {
    var p := IndexToCoord(width, i);
    if p.y >= height {
      MulLeft(height, p.y, width);
    }
  }

  /** Two in-bounds coordinates share an index only if they are equal. */
  lemma CoordToIndexInjective(width: nat, height: nat, p: Pos, q: Pos)
    requires InBounds(width, height, p) && InBounds(width, height, q)
    requires CoordToIndex(width, height, p) == CoordToIndex(width, height, q)
    ensures p == q
  {
    CoordIndexRoundTrip(width, height, p);
    CoordIndexRoundTrip(width, height, q);
  }

  /** The cell at `p` of a row-major grid, or `None` outside it. */
  function Lookup(width: nat, height: nat, tiles: seq<TileKind>, p: Pos): (r: Option<TileKind>)
    requires |tiles| == width * height
    ensures r.Some? <==> InBounds(width, height, p)
    ensures r.Some? ==> r.value == tiles[CoordToIndex(width, height, p).value]
  {
    match CoordToIndex(width, height, p)
    case None => None
    case Some(i) => Some(tiles[i])
  }

  /** The tile map resource: fixed dimensions and a vector of cells replaced in place. */
  class Tilemap {
    const width: nat
    const height: nat
    var tiles: seq<TileKind>

    ghost predicate Valid()
      reads this
    {
      width <= U32_MAX && height <= U32_MAX && width * height < CELL_LIMIT
      && |tiles| == width * height
    }

    /** A `width` by `height` grid with every cell set to `fill`. */
    constructor (w: nat, h: nat, fill: TileKind)
      requires w <= U32_MAX && h <= U32_MAX && w * h < CELL_LIMIT
      ensures Valid()
      ensures width == w && height == h
      ensures forall p :: InBounds(w, h, p) ==> Get(p) == Some(fill)
    {
      width, height := w, h;
      tiles := seq(w * h, _ => fill);
    }

    function Get(p: Pos): (r: Option<TileKind>)
      reads this
      requires Valid()
      ensures r.Some? <==> InBounds(width, height, p)
    {
      Lookup(width, height, tiles, p)
    }

    /** Replaces the cell at `p`; reports false, changing nothing, when `p` is outside the grid. */
    method Set(p: Pos, kind: TileKind) returns (ok: bool)
      requires Valid()
      modifies this
      ensures Valid()
      ensures ok <==> InBounds(width, height, p)
      ensures ok ==> tiles == old(tiles)[CoordToIndex(width, height, p).value := kind]
      ensures !ok ==> tiles == old(tiles)
      ensures ok ==> Get(p) == Some(kind)
      ensures forall q :: q != p ==> Get(q) == old(Get(q))
    {
      var idx := CoordToIndex(width, height, p);
      if idx.Some? {
        tiles := tiles[idx.value := kind];
        ok := true;
        forall q | q != p
          ensures Get(q) == old(Get(q))
        {
          if InBounds(width, height, q) && CoordToIndex(width, height, q) == idx {
            CoordToIndexInjective(width, height, p, q);
          }
        }
      } else {
        ok := false;
      }
    }

    /** A position is walkable exactly when it lies on the map and holds floor. */
    function IsWalkable(p: Pos): (r: bool)
      reads this
      requires Valid()
      ensures r <==> Get(p) == Some(Floor)
    {
      match Get(p)
      case None => false
      case Some(k) => Walkable(k)
    }

    /** Row `y` from column `x` onwards. */
    function RowFrom(y: nat, x: nat): seq<(Pos, TileKind)>
      reads this
      requires Valid() && y < height && x <= width
      decreases width - x
    {
      if x == width then [] else [(Pos(x, y), Get(Pos(x, y)).value)] + RowFrom(y, x + 1)
    }

    /** Rows `y` and below, each row left to right. */
    function RowsFrom(y: nat): seq<(Pos, TileKind)>
      reads this
      requires Valid() && y <= height
      decreases height - y
    {
      if y == height then [] else RowFrom(y, 0) + RowsFrom(y + 1)
    }

    /**
     * Every tile with its coordinate, rows outermost: each cell is listed
     * once, in row-major order, so the cell at `p` sits at `p`'s index.
     */
    function Iter(): (r: seq<(Pos, TileKind)>)
      reads this
      requires Valid()
      ensures |r| == width * height
      ensures forall p :: InBounds(width, height, p) ==>
        r[CoordToIndex(width, height, p).value] == (p, Get(p).value)
    {
      RowsFromZero();
      RowsFrom(0)
    }

    lemma {:induction false} RowFromAt(y: nat, x: nat)
      requires Valid() && y < height && x <= width
      ensures |RowFrom(y, x)| == width - x
      ensures forall k :: 0 <= k < width - x ==>
        RowFrom(y, x)[k] == (Pos(x + k, y), Get(Pos(x + k, y)).value)
      decreases width - x
    {
      if x < width {
        RowFromAt(y, x + 1);
      }
    }

    /** The entry for `p` sits `(p.y - y) * width + p.x` places into the rows from `y`. */
    ghost predicate RowsAt(y: nat, p: Pos)
      reads this
      requires Valid() && y <= height
    {
      var i := (p.y - y) * width + p.x;
      InBounds(width, height, p) && 0 <= i < |RowsFrom(y)| && RowsFrom(y)[i] == (p, Get(p).value)
    }

    lemma RowsStep(y: nat, p: Pos)
      requires Valid() && y < height
      requires InBounds(width, height, p) && p.y >= y
      requires |RowFrom(y, 0)| == width
      requires forall k :: 0 <= k < width ==>
        RowFrom(y, 0)[k] == (Pos(k, y), Get(Pos(k, y)).value)
      requires |RowsFrom(y + 1)| == (height - (y + 1)) * width
      requires p.y > y ==> RowsAt(y + 1, p)
      ensures RowsAt(y, p)
    {
      assert RowsFrom(y) == RowFrom(y, 0) + RowsFrom(y + 1);
      if p.y == y {
        assert (p.y - y) * width + p.x == p.x;
        assert RowFrom(y, 0)[p.x] == (p, Get(p).value);
      } else {
        var d := p.y - y;
        var j := (d - 1) * width + p.x;
        assert d * width == (d - 1) * width + width;
        assert 0 <= j < |RowsFrom(y + 1)|;
        assert RowsFrom(y)[width + j] == RowsFrom(y + 1)[j];
      }
    }

    lemma {:induction false} RowsFromAt(y: nat)
      requires Valid() && y <= height
      ensures |RowsFrom(y)| == (height - y) * width
      ensures forall p :: InBounds(width, height, p) && p.y >= y ==> RowsAt(y, p)
      decreases height - y
    {
      if y < height {
        RowFromAt(y, 0);
        RowsFromAt(y + 1);
        assert (height - y) * width == width + (height - (y + 1)) * width;
        forall p | InBounds(width, height, p) && p.y >= y
          ensures RowsAt(y, p)
        {
          RowsStep(y, p);
        }
      }
    }

    /** All the rows, from the first: the entry for `p` sits at `p`'s index. */
    lemma RowsFromZero()
      requires Valid()
      ensures |RowsFrom(0)| == width * height
      ensures forall p :: InBounds(width, height, p) ==>
        RowsFrom(0)[CoordToIndex(width, height, p).value] == (p, Get(p).value)
    {
      RowsFromAt(0);
      forall p | InBounds(width, height, p)
        ensures RowsFrom(0)[CoordToIndex(width, height, p).value] == (p, Get(p).value)
      {
        assert RowsAt(0, p);
      }
    }
  }
}
