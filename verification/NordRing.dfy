/** The ring that NoRD lays over the routers of a k x k mesh. */
module NordRing {
  import opened Arithmetic
  import opened Ports
  import opened Mesh
  import F = FlovFunctions

  /** Ports by which the ring enters and leaves a router: along the first row, then up and down
      the columns from the last to the first, below the first row. */
  function RingPorts(k: nat, n: Node): (int, int) {
    var row, col := n.y, n.x;
    if row == 0 && col == 0 then (SOUTH, EAST)
    else if row == 0 && col == k - 1 then (WEST, SOUTH)
    else if row == 1 && col % 2 == 1 && col < k - 1 then (EAST, SOUTH)
    else if row == 1 && col % 2 == 0 && col > 0 then (SOUTH, WEST)
    else if row == k - 1 && col % 2 == 0 then (EAST, NORTH)
    else if row == k - 1 && col % 2 == 1 then (NORTH, WEST)
    else if row == 0 then (WEST, EAST)
    else if col % 2 == 0 then (SOUTH, NORTH)
    else (NORTH, SOUTH)
  }

  /** Position of a router on the ring. */
  function RingId(k: nat, n: Node): int {
    if n.y == 0 then n.x
    else if n.x % 2 == 1 then (k - n.x) * (k - 1) + n.y
    else (k - n.x) * (k - 1) + (k - n.y)
  }

  /** The position after `p` on a ring of `n` routers. */
  function After(n: int, p: int): int {
    if p == n - 1 then 0 else p + 1
  }

  function RingNext(k: nat, n: Node): Node {
    Ahead(n, RingPorts(k, n).1, 1)
  }

  /** The ring leaves towards a router that it enters from here, one position on. */
  ghost predicate Succeeds(k: nat, n: Node) {
    var m := RingNext(k, n);
    && InMesh(k, m)
    && RingPorts(k, m).0 == Opposite(RingPorts(k, n).1)
    && RingId(k, m) == After(k * k, RingId(k, n))
  }

  /** One column further to the west the positions start k - 1 higher. */
  lemma Column(k: nat, x: int)
    ensures (k - (x - 1)) * (k - 1) == (k - x) * (k - 1) + (k - 1)
  {
  }

  lemma Ends(k: nat)
    ensures (k - (k - 1)) * (k - 1) == k - 1 && k * (k - 1) == k * k - k
  {
  }

  /** Positions below the first row lie between k and k*k - 1 and rise from column to column. */
  lemma PositionBounds(k: nat, n: Node)
    requires k >= 2 && InMesh(k, n) && n.y > 0
    ensures (k - n.x) * (k - 1) < RingId(k, n) <= (k - n.x) * (k - 1) + (k - 1)
    ensures k <= RingId(k, n) <= k * k - 1
    ensures RingId(k, n) == k * k - 1 ==> n.x == 0
  {
    Ends(k);
    Multiply(1, k - n.x, k - 1);
    Multiply(k - n.x, k, k - 1);
    if n.x > 0 { Multiply(k - n.x, k - 1, k - 1); Column(k, 1); }
  }

  lemma SucceedsBelow(k: nat, n: Node)
    requires k >= 2 && k % 2 == 0 && InMesh(k, n) && n.y > 0
    ensures Succeeds(k, n)
  {
    PositionBounds(k, n);
    Column(k, n.x);
    Ends(k);
  }

  lemma SucceedsFirstRow(k: nat, n: Node)
    requires k >= 2 && k % 2 == 0 && InMesh(k, n) && n.y == 0
    ensures Succeeds(k, n)
  {
    Ends(k);
    Multiply(1, k - 1, k);
    assert (k - 1) * k == k * k - k;
    if n.x == k - 1 {
      assert RingNext(k, n) == Node(k - 1, 1);
      assert RingId(k, Node(k - 1, 1)) == (k - (k - 1)) * (k - 1) + 1;
    }
  }

  /** On an odd mesh the ring enters the last column, but continues at the wrong end of it. */
  lemma CornerFails(k: nat)
    requires k > 2 && k % 2 == 1
    ensures !Succeeds(k, Node(k - 1, 0))
  {
    Multiply(2, k, k);
    LastColumn(k);
    assert RingId(k, Node(k - 1, 0)) == k - 1;
    assert RingNext(k, Node(k - 1, 0)) == Node(k - 1, 1);
  }

  lemma LastColumn(k: nat)
    requires k > 2 && k % 2 == 1
    ensures RingId(k, Node(k - 1, 1)) == 2 * (k - 1)
  {
    assert (k - 1) % 2 == 0 && k - (k - 1) == 1;
  }

  /** The ports form one ring in the order of the positions exactly on meshes of even radix. */
  lemma RingIffEven(k: nat)
    requires k >= 2
    ensures (forall n | InMesh(k, n) :: Succeeds(k, n)) <==> k % 2 == 0
  {
    if k % 2 == 0 {
      forall n | InMesh(k, n) ensures Succeeds(k, n) {
        if n.y == 0 { SucceedsFirstRow(k, n); } else { SucceedsBelow(k, n); }
      }
    } else {
      CornerFails(k);
      assert InMesh(k, Node(k - 1, 0));
    }
  }

  /** Routers have different positions. */
  lemma PositionsDiffer(k: nat, a: Node, b: Node)
    requires k >= 2 && InMesh(k, a) && InMesh(k, b) && a != b
    ensures RingId(k, a) != RingId(k, b) && 0 <= RingId(k, a) < k * k
  {
    Ends(k);
    Multiply(1, k, k);
    if a.y > 0 { PositionBounds(k, a); }
    if b.y > 0 { PositionBounds(k, b); }
    if a.y > 0 && b.y > 0 {
      if a.x < b.x { ColumnsApart(k, a.x, b.x); }
      if b.x < a.x { ColumnsApart(k, b.x, a.x); }
    }
  }

  lemma ColumnsApart(k: nat, x: int, y: int)
    requires k >= 2 && x < y
    ensures (k - y) * (k - 1) + (k - 1) <= (k - x) * (k - 1)
  {
    Multiply(k - y + 1, k - x, k - 1);
  }

  /** The constructor's choice of ports and position, on router numbers. On a mesh of even radix the
      router behind the ring output has the next position and takes flits in at its ring input, and
      the position tells routers apart. */
  method RingOf(k: nat, id: nat, ghost n: Node) returns (ringIn: int, ringOut: int, ringId: int)
    requires k >= 2 && InMesh(k, n) && id == Id(k, n)
    ensures (ringIn, ringOut) == RingPorts(k, n) && ringId == RingId(k, n)
    ensures 0 <= ringId < k * k && forall m | InMesh(k, m) && m != n :: RingId(k, m) != ringId
    ensures k % 2 == 0 ==>
              var next := Ahead(n, ringOut, 1);
              InMesh(k, next) && RingPorts(k, next).0 == Opposite(ringOut) && RingId(k, next) == After(k * k, ringId)
  {
    F.IdDigits(k, n);
    var row, col := id / k, id % k;
    FirstRow(k, n);
    if id == 0 { ringIn, ringOut := SOUTH, EAST; }
    else if id == k - 1 { ringIn, ringOut := WEST, SOUTH; }
    else if row == 1 && col % 2 == 1 && col < k - 1 { ringIn, ringOut := EAST, SOUTH; }
    else if row == 1 && col % 2 == 0 && col > 0 { ringIn, ringOut := SOUTH, WEST; }
    else if row == k - 1 && col % 2 == 0 { ringIn, ringOut := EAST, NORTH; }
    else if row == k - 1 && col % 2 == 1 { ringIn, ringOut := NORTH, WEST; }
    else if row == 0 { ringIn, ringOut := WEST, EAST; }
    else if col % 2 == 0 { ringIn, ringOut := SOUTH, NORTH; }
    else { ringIn, ringOut := NORTH, SOUTH; }
    if row == 0 {
      ringId := id;
    } else if col % 2 == 1 {
      ringId := (k - col) * (k - 1) + row;
    } else {
      ringId := (k - col) * (k - 1) + (k - row);
    }
    PositionRange(k, n);
    forall m | InMesh(k, m) && m != n ensures RingId(k, m) != RingId(k, n) { PositionsDiffer(k, m, n); }
    if k % 2 == 0 { Follows(k, n); }
  }

  lemma Follows(k: nat, n: Node)
    requires k >= 2 && k % 2 == 0 && InMesh(k, n)
    ensures Succeeds(k, n)
  {
    RingIffEven(k);
  }

  lemma FirstRow(k: nat, n: Node)
    requires k >= 2 && InMesh(k, n)
    ensures n.y == 0 ==> Id(k, n) == n.x
    ensures n.y > 0 ==> Id(k, n) >= k
  {
    if n.y > 0 { Multiply(1, n.y, k); }
  }

  // ---------- delivery along the ring ----------

  ghost function Follow(k: nat, n: Node, hops: nat): Node
    decreases hops
  {
    if hops == 0 then n else Follow(k, RingNext(k, n), hops - 1)
  }

  /** Hops along the ring from one position to another. */
  function RingHops(n: nat, at: int, dest: int): int {
    if dest >= at then dest - at else dest - at + n
  }

  /** On a mesh of even radix a packet that follows the ring meets every router, and reaches its
      destination after as many hops as the positions are apart: fewer than there are routers. */
  lemma {:induction false} RingDelivers(k: nat, n: Node, m: Node)
    requires k >= 2 && k % 2 == 0 && InMesh(k, n) && InMesh(k, m)
    ensures 0 <= RingHops(k * k, RingId(k, n), RingId(k, m)) < k * k
    ensures Follow(k, n, RingHops(k * k, RingId(k, n), RingId(k, m))) == m
    decreases RingHops(k * k, RingId(k, n), RingId(k, m))
  {
    PositionRange(k, n);
    PositionRange(k, m);
    if n != m {
      OneHopCloser(k, n, m);
      RingDelivers(k, RingNext(k, n), m);
    }
  }

  lemma OneHopCloser(k: nat, n: Node, m: Node)
    requires k >= 2 && k % 2 == 0 && InMesh(k, n) && InMesh(k, m) && n != m
    ensures InMesh(k, RingNext(k, n))
    ensures 0 <= RingHops(k * k, RingId(k, RingNext(k, n)), RingId(k, m))
              == RingHops(k * k, RingId(k, n), RingId(k, m)) - 1
  {
    NextPosition(k, n);
    PositionsDiffer(k, n, m);
    PositionRange(k, n);
    PositionRange(k, m);
    HopCount(k * k, RingId(k, n), RingId(k, m));
  }

  lemma HopCount(n: nat, at: int, dest: int)
    requires 0 <= at < n && 0 <= dest < n && at != dest
    ensures 0 <= RingHops(n, After(n, at), dest) == RingHops(n, at, dest) - 1
  {
  }

  lemma NextPosition(k: nat, n: Node)
    requires k >= 2 && k % 2 == 0 && InMesh(k, n)
    ensures InMesh(k, RingNext(k, n)) && RingId(k, RingNext(k, n)) == After(k * k, RingId(k, n))
  {
    RingIffEven(k);
    assert Succeeds(k, n);
    PositionRange(k, n);
    PositionRange(k, RingNext(k, n));
  }

  lemma PositionRange(k: nat, n: Node)
    requires k >= 2 && InMesh(k, n)
    ensures 0 <= RingId(k, n) < k * k
  {
    PositionsDiffer(k, n, if n.x == 0 then Node(1, n.y) else Node(0, n.y));
  }

  lemma {:induction false} FollowOn(k: nat, n: Node, hops: nat)
    ensures Follow(k, n, hops + 1) == RingNext(k, Follow(k, n, hops))
    decreases hops
  {
    if hops > 0 { FollowOn(k, RingNext(k, n), hops - 1); }
  }

  /** After `hops` hops along the ring a packet is as many positions further. */
  lemma {:induction false} FollowAt(k: nat, n: Node, hops: nat)
    requires k >= 2 && k % 2 == 0 && InMesh(k, n) && hops < k * k
    ensures InMesh(k, Follow(k, n, hops)) && RingHops(k * k, RingId(k, n), RingId(k, Follow(k, n, hops))) == hops
    decreases hops
  {
    PositionRange(k, n);
    if hops > 0 {
      FollowAt(k, n, hops - 1);
      FollowOn(k, n, hops - 1);
      NextPosition(k, Follow(k, n, hops - 1));
      PositionRange(k, Follow(k, n, hops - 1));
    }
  }

  /** The router before `b` on the ring lies behind its ring input. */
  lemma RingBefore(k: nat, b: Node) returns (q: Node)
    requires k >= 2 && k % 2 == 0 && InMesh(k, b)
    ensures InMesh(k, q) && RingNext(k, q) == b && q == Ahead(b, RingPorts(k, b).0, 1)
    ensures RingId(k, b) == After(k * k, RingId(k, q)) && RingPorts(k, b).0 == Opposite(RingPorts(k, q).1)
  {
    q := Preceding(k, b);
    Follows(k, q);
  }

  lemma Preceding(k: nat, b: Node) returns (q: Node)
    requires k >= 2 && k % 2 == 0 && InMesh(k, b)
    ensures InMesh(k, q) && RingNext(k, q) == b
  {
    var m := RingNext(k, b);
    NextPosition(k, b);
    var h := HopsBack(k, b, m);
    RingDelivers(k, m, b);
    q := Follow(k, m, h - 1);
    FollowAt(k, m, h - 1);
    FollowOn(k, m, h - 1);
  }

  lemma HopsBack(k: nat, b: Node, m: Node) returns (h: nat)
    requires k >= 2 && InMesh(k, b) && RingId(k, m) == After(k * k, RingId(k, b))
    ensures h == RingHops(k * k, RingId(k, m), RingId(k, b)) && 1 <= h < k * k
  {
    PositionRange(k, b);
    AtLeastFour(k);
    h := RingHops(k * k, RingId(k, m), RingId(k, b));
  }

  lemma AtLeastFour(k: nat)
    requires k >= 2
    ensures k * k >= 4
  {
    Multiply(2, k, k);
  }
}
