/** Places of tiles on a chip's two networks. */
module Coords {

  /** A tile's place on the first network. */
  type Coord = (nat, nat)

  /** A coordinate counted from the far corner of a grid. */
  function Flip(sizeX: nat, sizeY: nat, t: Coord): (r: Coord)
    requires t.0 < sizeX && t.1 < sizeY
    ensures r.0 < sizeX && r.1 < sizeY
  {
    (sizeX - t.0 - 1, sizeY - t.1 - 1)
  }
}
