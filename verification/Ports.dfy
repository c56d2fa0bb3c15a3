/** The ports of a router in a two-dimensional mesh. */
module Ports {
  const EAST := 0
  const WEST := 1
  const SOUTH := 2
  const NORTH := 3
  const LOCAL := 4

  /** The input port at which a flit sent through output `port` arrives: an input port names the
      side the flit came from. */
  function Opposite(port: int): int {
    if port == EAST then WEST else if port == WEST then EAST
    else if port == SOUTH then NORTH else SOUTH
  }
}
