/**
 Integer positions and boxes of the voxel world.

 A `Pos` is used both as an absolute block position and as a layer-relative
 offset (the game's `BlockPos` and `Vector3i` are both integer triples). A
 `Box` is a block-aligned axis-aligned region given by its minimum corner and
 its extent along each axis; it holds exactly the positions `p` with
 `min.x <= p.x < min.x + xSize` (and likewise for Y and Z).
 */
module Geometry {

  datatype Pos = Pos(x: int, y: int, z: int)

  /** The zero vector. */
  const Origin: Pos := Pos(0, 0, 0)

  function Add(a: Pos, b: Pos): Pos
  {
    Pos(a.x + b.x, a.y + b.y, a.z + b.z)
  }

  function Sub(a: Pos, b: Pos): Pos
  {
    Pos(a.x - b.x, a.y - b.y, a.z - b.z)
  }

  /** Subtraction undoes addition, so normalising a shifted position is exact. */
  lemma SubAdd(p: Pos, v: Pos)
    ensures Sub(Add(p, v), v) == p
    ensures Add(Sub(p, v), v) == p
  {
  }

  datatype Box = Box(min: Pos, xSize: nat, ySize: nat, zSize: nat) {

    predicate Contains(p: Pos)
    {
      && min.x <= p.x < min.x + xSize
      && min.y <= p.y < min.y + ySize
      && min.z <= p.z < min.z + zSize
    }

    /** The same box moved by `v`. */
    function Shift(v: Pos): (b: Box)
      ensures b.xSize == xSize && b.ySize == ySize && b.zSize == zSize
      ensures forall p :: b.Contains(Add(p, v)) <==> Contains(p)
    {
      Box(Add(min, v), xSize, ySize, zSize)
    }
  }

  /** Every block position inside `b`. */
  function AllInBox(b: Box): (ps: set<Pos>)
    ensures forall p :: p in ps <==> b.Contains(p)
  {
    var ps := set x: int, y: int, z: int
      | b.min.x <= x < b.min.x + b.xSize
        && b.min.y <= y < b.min.y + b.ySize
        && b.min.z <= z < b.min.z + b.zSize
      :: Pos(x, y, z);
    assert forall p | b.Contains(p) :: p == Pos(p.x, p.y, p.z);
    ps
  }
}
