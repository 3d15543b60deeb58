/** The size of the square terrain, shared by the height map and the node table. */
module Grid {
  /** Side of the height map, in cells (a power of two). */
  const GridSize: nat := 256
}
