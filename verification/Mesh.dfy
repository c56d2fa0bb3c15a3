/** A k x k mesh of routers, some of which are power-gated. */
module Mesh {
  import opened Ports

  /** Router `y * k + x`; rows grow southwards, and row `k - 1` is always powered. */
  datatype Node = Node(x: int, y: int)

  ghost predicate InMesh(k: int, n: Node) {
    0 <= n.x < k && 0 <= n.y < k
  }

  function Id(k: int, n: Node): int {
    n.y * k + n.x
  }

  /** The router `d` links away from `n` through output `port`. */
  function Ahead(n: Node, port: int, d: int): Node {
    if port == EAST then Node(n.x + d, n.y)
    else if port == WEST then Node(n.x - d, n.y)
    else if port == SOUTH then Node(n.x, n.y + d)
    else Node(n.x, n.y - d)
  }

  /** The state of the routers during one hop: which are gated, and whether the packet is late. */
  datatype Env = Env(off: set<Node>, late: bool)

  ghost predicate Powered(k: int, off: set<Node>, n: Node) {
    InMesh(k, n) && n !in off
  }

  /** Distance to the first powered router through `port`, at least `d` away; 0 if there is none.
      A flit flies over gated routers without turning, so this is where its hop ends. */
  ghost function FlyFrom(k: int, off: set<Node>, n: Node, port: int, d: int): (r: int)
    requires d >= 1
    ensures r == 0 || (d <= r < k && Powered(k, off, Ahead(n, port, r)))
    ensures forall e | d <= e < (if r == 0 then k else r) :: !Powered(k, off, Ahead(n, port, e))
    decreases k - d
  {
    if d >= k then 0
    else if Powered(k, off, Ahead(n, port, d)) then d
    else FlyFrom(k, off, n, port, d + 1)
  }

  ghost function Fly(k: int, off: set<Node>, n: Node, port: int): (r: int)
    ensures r >= 0
  {
    FlyFrom(k, off, n, port, 1)
  }
}
